// Spellings of one location canonicalise alike: separators, noise segments,
// `name\..`, trailing dots and spaces, the `\\?\` prefix and letter case.
module PathSpellings {
  import opened Prelude
  import opened Text
  import opened Paths
  import opened PathLaws

  /** Either separator will do, in any input. */
  lemma SeparatorsAreAlike(s: string)
    ensures Canonical(Unified(s)) == Canonical(s)
  {
    UnifiedIsPlain(s);
    UnifiedIsPlain(Unified(s));
    UnifiedAt(s);
    if '\0' in s {
      var i :| 0 <= i < |s| && s[i] == '\0';
      assert Unified(s)[i] == '\0';
    }
  }

  // ----- inserted segments -----

  lemma UnifiedSegment(pre: string, x: string)
    ensures Unified(pre + "\\" + x) == Unified(pre) + "\\" + Unified(x)
  {
    UnifiedConcat(pre + "\\", x);
    UnifiedConcat(pre, "\\");
    assert Unified("\\") == "\\";
  }

  lemma BelowLonger(pre: string, x: string)
    requires Drive(pre)
    ensures Drive(pre + "\\" + x)
    ensures BelowDrive(pre + "\\" + x) == BelowDrive(pre) + Split(Unified(x), '\\')
  {
    var u := Unified(pre) + "\\" + Unified(x);
    UnifiedSegment(pre, x);
    if |pre| == 2 {
      assert u[3..] == Unified(x);
    } else {
      assert u[3..] == Unified(pre)[3..] + ['\\'] + Unified(x);
      SplitAt(Unified(pre)[3..], Unified(x), '\\');
    }
  }

  /** The stack after the segments of a path, pushed in three parts. */
  function Stacked(below: seq<string>, middle: seq<string>, tail: seq<string>): Result<Stack, PathError> {
    Continued(Continued(PushAll(Stack([], false), below, DriveRooted), middle, DriveRooted), tail, DriveRooted)
  }

  lemma StackedParts(below: seq<string>, middle: seq<string>, tail: seq<string>)
    ensures PushAll(Stack([], false), below + middle + tail, DriveRooted) == Stacked(below, middle, tail)
  {
    PushAllConcat(Stack([], false), below + middle, tail, DriveRooted);
    PushAllConcat(Stack([], false), below, middle, DriveRooted);
  }

  /** The segments at the end of a path, which is trimmed. */
  function Tail(post: string): seq<string> {
    Split(TrimEnd(Unified(post)), '\\')
  }

  /** The result with `x` between a drive path and what follows it. */
  lemma Inserted(pre: string, x: string, post: string)
    requires Drive(pre) && '\0' !in pre && '\0' !in x && '\0' !in post
    ensures Canonical(pre + "\\" + x + "\\" + post)
         == DrivePath(pre[0], Stacked(BelowDrive(pre), Split(Unified(x), '\\'), Tail(post)))
  {
    BelowLonger(pre, x);
    DriveForm(pre + "\\" + x, post);
    StackedParts(BelowDrive(pre), Split(Unified(x), '\\'), Tail(post));
  }

  lemma NotInserted(pre: string, post: string)
    requires Drive(pre) && '\0' !in pre && '\0' !in post
    ensures Canonical(pre + "\\" + post) == DrivePath(pre[0], Stacked(BelowDrive(pre), [], Tail(post)))
  {
    DriveForm(pre, post);
    StackedParts(BelowDrive(pre), [], Tail(post));
    assert BelowDrive(pre) + [] == BelowDrive(pre);
  }

  /** A doubled separator, or a `.` between separators or at the end, changes
      nothing. */
  lemma NoiseIsIgnored(pre: string, x: string, post: string)
    requires Drive(pre) && '\0' !in pre && '\0' !in post
    requires x == "" || x == "."
    ensures Canonical(pre + "\\" + x + "\\" + post) == Canonical(pre + "\\" + post)
    ensures Canonical(pre + "\\" + x) == Canonical(pre + "\\")
  {
    hide Canonical;
    NoiseAtEnd(pre, x);
    Inserted(pre, x, post);
    NotInserted(pre, post);
    assert Unified(x) == x && '\\' !in x;
    SplitPiece(x, '\\');
    StackedNoise(BelowDrive(pre), x, Tail(post));
  }

  lemma StackedNoise(below: seq<string>, x: string, tail: seq<string>)
    requires x == "" || x == "."
    ensures Stacked(below, [x], tail) == Stacked(below, [], tail)
  {
    var start := PushAll(Stack([], false), below, DriveRooted);
    if start.Ok? {
      PushOne(start.value, x);
    }
  }

  lemma PushOne(stack: Stack, x: string)
    ensures PushAll(stack, [x], DriveRooted) == Push(stack, x, DriveRooted)
  {
  }

  /** A name Win32 keeps: no separator, no colon, more than dots and spaces. */
  predicate Name(x: string) {
    '\\' !in x && '/' !in x && ':' !in x && '\0' !in x && Stem(x) != ""
  }

  /** One location: the same result, but for a flag that `a` may raise alone. */
  ghost predicate SameLocation(a: Result<CanonicalPath, PathError>, b: Result<CanonicalPath, PathError>) {
    match b
    case Err(_) => a == b
    case Ok(path) => a.Ok? && a.value.(shortName := path.shortName) == path && (path.shortName ==> a.value.shortName)
  }

  lemma {:induction false} FlagOnly(a: Stack, b: Stack, segments: seq<string>, kind: Kind)
    requires a.components == b.components && (b.shortName ==> a.shortName)
    ensures var ra, rb := PushAll(a, segments, kind), PushAll(b, segments, kind);
            match rb
            case Err(_) => ra == rb
            case Ok(sb) => ra.Ok? && ra.value.components == sb.components && (sb.shortName ==> ra.value.shortName)
    decreases |segments|
  {
    if segments != [] {
      var na, nb := Push(a, segments[0], kind), Push(b, segments[0], kind);
      if nb.Ok? {
        FlagOnly(na.value, nb.value, segments[1..], kind);
      }
    }
  }

  lemma NoiseAtEnd(pre: string, x: string)
    requires Drive(pre) && '\0' !in pre
    requires x == "" || x == "."
    ensures Canonical(pre + "\\" + x) == Canonical(pre + "\\")
    ensures Canonical(pre + "\\") == DrivePath(pre[0], Stacked(BelowDrive(pre), [], []))
  {
    assert TrimEnd(x) == x && TrimEnd("") == "";
    hide Canonical; hide Stacked;
    assert pre + "\\" + "" == pre + "\\";
    Ending(pre, x);
    Ending(pre, "");
    StackedNoise(BelowDrive(pre), x, []);
    StackedNoise(BelowDrive(pre), "", []);
  }

  /** Down into a name and up again is where it started; only the 8.3 flag may
      remember the name. */
  lemma DownAndUp(pre: string, name: string, post: string)
    requires Drive(pre) && '\0' !in pre && '\0' !in post && Name(name)
    ensures SameLocation(Canonical(pre + "\\" + (name + "\\..") + "\\" + post), Canonical(pre + "\\" + post))
    ensures SameLocation(Canonical(pre + "\\" + (name + "\\..")), Canonical(pre + "\\"))
  {
    DownAndUpAtEnd(pre, name);
    Inserted(pre, name + "\\..", post);
    NotInserted(pre, post);
    SplitDownAndUp(name);
    StackedDownAndUp(BelowDrive(pre), name, Tail(post));
  }

  lemma DownAndUpAtEnd(pre: string, name: string)
    requires Drive(pre) && '\0' !in pre && Name(name)
    ensures SameLocation(Canonical(pre + "\\" + (name + "\\..")), Canonical(pre + "\\"))
  {
    hide Canonical; hide Stacked; hide Name;
    NoiseAtEnd(pre, "");
    SplitDownAndUp(name);
    NotTrimmed(name);
    DriveForm(pre, name + "\\..");
    StackedParts(BelowDrive(pre), [name, ".."], []);
    assert BelowDrive(pre) + [name, ".."] + [] == BelowDrive(pre) + [name, ".."];
    StackedDownAndUp(BelowDrive(pre), name, []);
  }

  lemma NotTrimmed(name: string)
    ensures TrimEnd(Unified(name + "\\..")) == Unified(name + "\\..")
  {
    UnifiedAt(name + "\\..");
  }

  lemma SplitDownAndUp(name: string)
    requires Name(name)
    ensures '\0' !in name + "\\.."
    ensures Split(Unified(name + "\\.."), '\\') == [name, ".."]
  {
    UnifiedIsPlain(name);
    UnifiedIsPlain("..");
    UnifiedSegment(name, "..");
    assert name + "\\.." == name + "\\" + "..";
    SplitAt(name, "..", '\\');
    SplitPiece(name, '\\');
    SplitPiece("..", '\\');
  }

  lemma StackedDownAndUp(below: seq<string>, name: string, tail: seq<string>)
    requires Name(name)
    ensures var ra, rb := Stacked(below, [name, ".."], tail), Stacked(below, [], tail);
            match rb
            case Err(_) => ra == rb
            case Ok(sb) => ra.Ok? && ra.value.components == sb.components && (sb.shortName ==> ra.value.shortName)
  {
    var start := PushAll(Stack([], false), below, DriveRooted);
    if start.Ok? {
      var up := PushedDownAndUp(start.value, name);
      FlagOnly(up, start.value, tail, DriveRooted);
    }
  }

  lemma PushedDownAndUp(stack: Stack, name: string) returns (up: Stack)
    requires Name(name)
    ensures PushAll(stack, [name, ".."], DriveRooted) == Ok(up)
    ensures up.components == stack.components && (stack.shortName ==> up.shortName)
  {
    var down := PushedName(stack, name);
    assert down.components[..|down.components| - 1] == stack.components;
    up := Stack(stack.components, down.shortName);
    PushOne(stack, name);
    PushOne(down, "..");
    PushAllConcat(stack, [name], [".."], DriveRooted);
    assert [name] + [".."] == [name, ".."];
  }

  lemma PushedName(stack: Stack, name: string) returns (next: Stack)
    requires Name(name)
    ensures Push(stack, name, DriveRooted) == Ok(next)
    ensures next.components == stack.components + [UpperAll(Stem(name))]
    ensures stack.shortName ==> next.shortName
  {
    assert Stem("") == "" && Stem(".") == "" && Stem("..") == "";
    assert forall c :: c in Stem(name) ==> c in name;
    next := Push(stack, name, DriveRooted).value;
  }

  // ----- trailing dots and spaces -----

  predicate DotsAndSpaces(tail: string) {
    forall c :: c in tail ==> c == '.' || c == ' '
  }

  lemma {:induction false} StemAfter(name: string, tail: string)
    requires DotsAndSpaces(tail)
    ensures Stem(name + tail) == Stem(name)
    decreases |tail|
  {
    if tail == "" {
      assert name + tail == name;
    } else {
      var n := |tail| - 1;
      assert tail[n] in tail && forall c :: c in tail[..n] ==> c in tail;
      assert (name + tail)[..|name + tail| - 1] == name + tail[..n];
      StemAfter(name, tail[..n]);
    }
  }

  lemma PushTail(stack: Stack, name: string, tail: string, kind: Kind)
    requires Stem(name) != "" && DotsAndSpaces(tail)
    ensures Push(stack, name + tail, kind) == Push(stack, name, kind)
  {
    StemAfter(name, tail);
    assert Stem("") == "" && Stem(".") == "" && Stem("..") == "";
  }

  lemma StackedTail(below: seq<string>, name: string, dots: string, tail: seq<string>)
    requires Stem(name) != "" && DotsAndSpaces(dots)
    ensures Stacked(below, [name + dots], tail) == Stacked(below, [name], tail)
  {
    var start := PushAll(Stack([], false), below, DriveRooted);
    if start.Ok? {
      PushOne(start.value, name + dots);
      PushOne(start.value, name);
      PushTail(start.value, name, dots, DriveRooted);
    }
  }

  lemma DottedPiece(name: string, dots: string)
    requires Name(name) && DotsAndSpaces(dots)
    ensures '\0' !in name + dots && Unified(name + dots) == name + dots
    ensures Split(name + dots, '\\') == [name + dots]
  {
    assert forall c :: c in name + dots ==> c in name || c in dots;
    UnifiedIsPlain(name + dots);
    SplitPiece(name + dots, '\\');
  }

  /** Dots and spaces at the end of a name in the middle of a path. */
  lemma TrailingDotsInside(pre: string, name: string, dots: string, post: string)
    requires Drive(pre) && '\0' !in pre && '\0' !in post && Name(name) && DotsAndSpaces(dots)
    ensures Canonical(pre + "\\" + (name + dots) + "\\" + post) == Canonical(pre + "\\" + name + "\\" + post)
  {
    DottedPiece(name, dots);
    DottedPiece(name, "");
    assert name + "" == name;
    Inserted(pre, name, post);
    Inserted(pre, name + dots, post);
    StackedTail(BelowDrive(pre), name, dots, Tail(post));
  }

  lemma {:induction false} TrimEndKeeps(a: string, b: string)
    ensures TrimEnd(b) != "" ==> TrimEnd(a + b) == a + TrimEnd(b)
    ensures TrimEnd(b) == "" ==> TrimEnd(a + b) == TrimEnd(a)
    decreases |b|
  {
    if b == "" {
      assert a + b == a;
    } else if IsWhitespace(b[|b| - 1]) {
      assert (a + b)[..|a + b| - 1] == a + b[..|b| - 1];
      TrimEndKeeps(a, b[..|b| - 1]);
    }
  }

  /** The result with a name at the end of a drive path, which is trimmed. */
  lemma Ending(pre: string, last: string)
    requires Drive(pre) && '\0' !in pre && '\0' !in last && '/' !in last && '\\' !in last
    ensures Canonical(pre + "\\" + last) == DrivePath(pre[0], Stacked(BelowDrive(pre), [TrimEnd(last)], []))
  {
    UnifiedIsPlain(last);
    SplitPiece(TrimEnd(last), '\\');
    NotInserted(pre, last);
    LastInMiddle(BelowDrive(pre), TrimEnd(last));
  }

  /** White space at the end of a name is none of what Win32 keeps of it. */
  predicate TrimsNothingKept(name: string) {
    |Stem(name)| <= |TrimEnd(name)|
  }

  lemma {:induction false} StemOfPrefix(name: string, n: nat)
    requires |Stem(name)| <= n <= |name|
    ensures Stem(name[..n]) == Stem(name)
    decreases |name|
  {
    if n < |name| {
      assert name[..|name| - 1][..n] == name[..n];
      StemOfPrefix(name[..|name| - 1], n);
    } else {
      assert name[..n] == name;
    }
  }

  lemma PushShorter(stack: Stack, name: string, trimmed: string)
    requires Name(name) && |trimmed| < |Stem(name)|
    ensures Push(stack, trimmed, DriveRooted) != Push(stack, name, DriveRooted)
  {
    var down := PushedName(stack, name);
    var r := Push(stack, trimmed, DriveRooted);
    if r.Ok? && r.value.components == down.components {
      assert r.value.components[|stack.components|] == UpperAll(Stem(name));
      assert |UpperAll(Stem(trimmed))| < |UpperAll(Stem(name))|;
    }
  }

  lemma PushTrimmed(stack: Stack, name: string, dots: string)
    requires Name(name) && DotsAndSpaces(dots)
    ensures Push(stack, TrimEnd(name + dots), DriveRooted) == Push(stack, TrimEnd(name), DriveRooted)
       <==> TrimEnd(dots) == "" || TrimsNothingKept(name)
  {
    TrimEndKeeps(name, dots);
    if TrimEnd(dots) != "" {
      assert forall c :: c in TrimEnd(dots) ==> c in dots;
      PushTail(stack, name, TrimEnd(dots), DriveRooted);
      if TrimsNothingKept(name) {
        assert TrimEnd(name) == name[..|TrimEnd(name)|];
        StemOfPrefix(name, |TrimEnd(name)|);
        SameStemSamePush(stack, name, TrimEnd(name));
      } else {
        PushShorter(stack, name, TrimEnd(name));
      }
    }
  }

  lemma SameStemSamePush(stack: Stack, a: string, b: string)
    requires Stem(a) == Stem(b) != ""
    ensures Push(stack, a, DriveRooted) == Push(stack, b, DriveRooted)
  {
    assert Stem("") == "" && Stem(".") == "" && Stem("..") == "";
  }

  /** And at the end of the path, where white space is trimmed before the dots
      and spaces are: they change nothing exactly when they are only spaces, or
      the trimming takes nothing of the name that Win32 would keep, or the
      directory is none. */
  lemma TrailingDotsAtEnd(pre: string, name: string, dots: string)
    requires Drive(pre) && '\0' !in pre && Name(name) && DotsAndSpaces(dots)
    ensures Canonical(pre + "\\" + (name + dots)) == Canonical(pre + "\\" + name) <==>
              TrimEnd(dots) == "" || TrimsNothingKept(name) || Canonical(pre + "\\").Err?
  {
    DottedPiece(name, dots);
    assert forall c :: c in name + dots ==> c in name || c in dots;
    Ending(pre, name + dots);
    Ending(pre, name);
    Ending(pre, "");
    assert pre + "\\" + "" == pre + "\\";
    var start := PushAll(Stack([], false), BelowDrive(pre), DriveRooted);
    hide Canonical; hide Push; hide Name; hide TrimEnd; hide Stem; hide BelowDrive; hide TrimsNothingKept;
    if start.Ok? {
      PushOne(start.value, TrimEnd(name + dots));
      PushOne(start.value, TrimEnd(name));
      PushOne(start.value, TrimEnd(""));
      PushNothing(start.value);
      PushTrimmed(start.value, name, dots);
      SameResult(pre[0], Push(start.value, TrimEnd(name + dots), DriveRooted), Push(start.value, TrimEnd(name), DriveRooted));
    }
  }

  lemma PushNothing(stack: Stack)
    ensures Push(stack, TrimEnd(""), DriveRooted) == Ok(stack)
  {
  }

  lemma SameResult(letter: char, a: Result<Stack, PathError>, b: Result<Stack, PathError>)
    ensures DrivePath(letter, a) == DrivePath(letter, b) <==> a == b
  {
    hide RenderedPath;
  }

  /** A tab is white space that Win32 keeps. */
  lemma TabKeepsItsDot()
    ensures Canonical("C:\\a\t.") != Canonical("C:\\a\t")
  {
    var pre, name, dots := "C:", "a\t", ".";
    assert pre + "\\" + (name + dots) == "C:\\a\t." && pre + "\\" + name == "C:\\a\t";
    assert TrimEnd(name) == "a" && Stem(name) == name && TrimEnd(dots) == ".";
    TrailingDotsAtEnd(pre, name, dots);
    Ending(pre, "");
    assert pre + "\\" + "" == pre + "\\";
    PushNothing(Stack([], false));
    PushOne(Stack([], false), TrimEnd(""));
    hide Canonical; hide Push;
  }

  lemma LastInMiddle(below: seq<string>, last: string)
    ensures Stacked(below, [], [last]) == Stacked(below, [last], [])
  {
    PushAllConcat(Stack([], false), below, [last], DriveRooted);
  }

  // ----- the extended-length prefix -----

  const VERBATIM := "\\\\?\\"

  lemma FoldMismatch(s: string, prefix: string, i: nat)
    requires i < |prefix| && (i < |s| ==> Lower(s[i]) != Lower(prefix[i]))
    ensures !StartsFold(s, prefix) && !EqFold(s, prefix)
  {
    if StartsFold(s, prefix) {
      FoldIndex(s[..|prefix|], prefix, i);
    }
    if EqFold(s, prefix) {
      FoldIndex(s, prefix, i);
    }
  }

  lemma RootAfterPrefix(t: string)
    requires |t| >= 2 && t[1] == ':'
    ensures SplitRoot(VERBATIM + t) == DriveRoot(t)
  {
    var p := VERBATIM + t;
    assert p[..4] == VERBATIM && p[4..] == t && p[5] == ':';
    FoldMismatch(p, "\\\\?\\UNC\\", 5);
    FoldMismatch(t, "GLOBALROOT\\", 1);
    FoldMismatch(t, "GLOBALROOT", 1);
    assert StartsFold(p, "\\\\?\\");
    assert VerbatimRoot(t) == DriveRoot(t);
  }

  lemma TrimmedAfterPrefix(s: string)
    requires Drive(s)
    ensures Trim(Unified(s)) == TrimEnd(Unified(s))
    ensures Trim(Unified(VERBATIM + s)) == VERBATIM + TrimEnd(Unified(s))
    ensures TrimEnd(Unified(s)) != "" && IsLetter(TrimEnd(Unified(s))[0])
    ensures |TrimEnd(Unified(s))| >= 2 && TrimEnd(Unified(s))[1] == ':'
  {
    var u := Unified(s);
    DriveStart(s);
    UnifiedConcat(VERBATIM, s);
    assert Unified(VERBATIM) == VERBATIM;
    hide Unified; hide Drive;
    assert TrimStart(VERBATIM + u) == VERBATIM + u && TrimStart(u) == u;
    hide TrimStart;
    TrimEndAfter(VERBATIM, u);
    TrimEndAfter(u[..2], u[2..]);
    hide TrimEnd;
    assert u == u[..2] + u[2..];
  }

  lemma DriveStart(s: string)
    requires Drive(s)
    ensures |Unified(s)| >= 2 && IsLetter(Unified(s)[0]) && Unified(s)[1] == ':'
  {
    UnifiedAt(s);
  }

  /** `\\?\C:\...` is `C:\...`. */
  lemma VerbatimIsPlain(s: string)
    requires Drive(s) && '\0' !in s
    ensures Canonical(VERBATIM + s) == Canonical(s)
  {
    var t := TrimEnd(Unified(s));
    TrimmedAfterPrefix(s);
    NotNamespaced(t);
    RootAfterPrefix(t);
    assert CanonicalTrimmed(VERBATIM + t) == CanonicalTrimmed(t);
  }

  // ----- letter case -----

  function LowerEach(parts: seq<string>): seq<string> {
    if parts == [] then [] else [LowerAll(parts[0])] + LowerEach(parts[1..])
  }

  lemma LowerPrefix(s: string, n: nat)
    requires n <= |s|
    ensures LowerAll(s)[..n] == LowerAll(s[..n])
    ensures LowerAll(s)[n..] == LowerAll(s[n..])
  {
    hide LowerAll;
    LowerConcat(s[..n], s[n..]);
    assert s[..n] + s[n..] == s;
    Halves(LowerAll(s[..n]), LowerAll(s[n..]));
  }

  lemma Halves(a: string, b: string)
    ensures (a + b)[..|a|] == a && (a + b)[|a|..] == b
  {
  }

  lemma LowerTwice(s: string)
    ensures LowerAll(LowerAll(s)) == LowerAll(s)
  {
    CaseOfCase(s);
  }

  lemma LowerUnified(s: string)
    ensures Unified(LowerAll(s)) == LowerAll(Unified(s))
  {
    LowerAllAt(s);
    UnifiedAt(s);
    UnifiedAt(LowerAll(s));
    LowerAllAt(Unified(s));
  }

  lemma LowerHas(s: string, c: char)
    requires Lower(c) == c && Upper(c) == c
    ensures c in LowerAll(s) <==> c in s
  {
    LowerAllAt(s);
    if c in LowerAll(s) {
      var i :| 0 <= i < |s| && LowerAll(s)[i] == c;
      assert s[i] == c;
    }
    if c in s {
      var i :| 0 <= i < |s| && s[i] == c;
      assert LowerAll(s)[i] == c;
    }
  }

  lemma {:induction false} LowerTrimStart(s: string)
    ensures TrimStart(LowerAll(s)) == LowerAll(TrimStart(s))
  {
    LowerAllAt(s);
    if s != "" && IsWhitespace(s[0]) {
      LowerTrimStart(s[1..]);
      LowerPrefix(s, 1);
    }
  }

  lemma LowerEnd(s: string)
    requires s != ""
    ensures var n := |s| - 1; |LowerAll(s)| == |s| && LowerAll(s)[n] == Lower(s[n]) && LowerAll(s)[..n] == LowerAll(s[..n])
  {
    LowerAllAt(s);
    hide LowerAll;
    LowerPrefix(s, |s| - 1);
  }

  lemma {:induction false} LowerTrimEnd(s: string)
    ensures TrimEnd(LowerAll(s)) == LowerAll(TrimEnd(s))
  {
    if s != "" {
      var n := |s| - 1;
      LowerEnd(s);
      hide LowerAll;
      if IsWhitespace(s[n]) {
        LowerTrimEnd(s[..n]);
      }
    }
  }

  lemma {:induction false} LowerStem(s: string)
    ensures Stem(LowerAll(s)) == LowerAll(Stem(s))
  {
    if s == "" {
      assert LowerAll(s) == s;
    } else {
      var n := |s| - 1;
      LowerEnd(s);
      hide LowerAll;
      if s[n] == '.' || s[n] == ' ' {
        LowerStem(s[..n]);
      }
    }
  }

  lemma {:induction false} LowerSplit(s: string)
    ensures Split(LowerAll(s), '\\') == LowerEach(Split(s, '\\'))
  {
    if s == "" {
      assert LowerEach([""]) == [""];
    } else {
      LowerSplit(s[1..]);
      LowerPrefix(s, 1);
      var rest := Split(s[1..], '\\');
      if s[0] == '\\' {
        assert ([""] + rest)[1..] == rest;
      } else {
        var parts := [[s[0]] + rest[0]] + rest[1..];
        assert parts[1..] == rest[1..];
        LowerConcat([s[0]], rest[0]);
      }
    }
  }

  lemma LowerIndex(s: string, c: char)
    requires Lower(c) == c && Upper(c) == c
    ensures IndexOf(LowerAll(s), c) == IndexOf(s, c)
    ensures LastIndexOf(LowerAll(s), c) == LastIndexOf(s, c)
  {
    var l := LowerAll(s);
    LowerAllAt(s);
    var i, j := IndexOf(l, c), IndexOf(s, c);
    assert i < |l| ==> Lower(s[i]) == c;
    var m, n := LastIndexOf(l, c), LastIndexOf(s, c);
    assert m >= 0 ==> Lower(s[m]) == c;
  }

  lemma LowerShortName(s: string)
    ensures IsShortName(LowerAll(s)) == IsShortName(s)
  {
    ShortNameOfUpper(LowerAll(s));
    ShortNameOfUpper(s);
    CaseOfCase(s);
  }

  lemma LowerPush(stack: Stack, raw: string, kind: Kind)
    ensures Push(stack, LowerAll(raw), kind) == Push(stack, raw, kind)
  {
    hide LowerAll; hide UpperAll; hide Stem; hide IsShortName;
    assert Stem(LowerAll(raw)) == LowerAll(Stem(raw)) by { LowerStem(raw); }
    assert ':' in LowerAll(Stem(raw)) <==> ':' in Stem(raw) by { LowerHas(Stem(raw), ':'); }
    assert IsShortName(LowerAll(Stem(raw))) == IsShortName(Stem(raw)) by { LowerShortName(Stem(raw)); }
    assert UpperAll(LowerAll(Stem(raw))) == UpperAll(Stem(raw)) by { CaseOfCase(Stem(raw)); }
    assert LowerAll(Stem(raw)) == "" <==> Stem(raw) == "" by { LowerSame(Stem(raw), ""); }
    assert LowerAll(raw) == "" <==> raw == "" by { LowerSame(raw, ""); }
    assert LowerAll(raw) == "." <==> raw == "." by { LowerSame(raw, "."); }
    assert LowerAll(raw) == ".." <==> raw == ".." by { LowerSame(raw, ".."); }
  }

  lemma LowerSame(s: string, t: string)
    requires forall c :: c in t ==> c == '.'
    ensures LowerAll(s) == t <==> s == t
  {
    LowerAllAt(s);
    if LowerAll(s) == t {
      forall i | 0 <= i < |s| ensures s[i] == t[i] {
        assert t[i] in t && LowerAll(s)[i] == Lower(s[i]);
      }
    }
    if s == t {
      forall i | 0 <= i < |t| ensures LowerAll(s)[i] == t[i] {
        assert t[i] in t;
      }
    }
  }

  lemma {:induction false} LowerPushAll(stack: Stack, segments: seq<string>, kind: Kind)
    ensures PushAll(stack, LowerEach(segments), kind) == PushAll(stack, segments, kind)
    decreases |segments|
  {
    if segments != [] {
      LowerPush(stack, segments[0], kind);
      match Push(stack, segments[0], kind) {
        case Err(_) =>
        case Ok(next) => LowerPushAll(next, segments[1..], kind);
      }
    }
  }

  /** Roots of one path in two letter cases. */
  ghost predicate SameRoot(a: Result<Root, PathError>, b: Result<Root, PathError>) {
    match b
    case Err(_) => a == b
    case Ok(root) =>
      && a.Ok? && a.value.kind == root.kind && a.value.rest == LowerAll(root.rest)
      && EqFold(a.value.root, root.root) && (root.kind != Unc ==> a.value.root == root.root)
  }

  lemma LowerStarts(s: string, prefix: string)
    ensures StartsFold(LowerAll(s), prefix) == StartsFold(s, prefix)
  {
    if |prefix| <= |s| {
      LowerPrefix(s, |prefix|);
      LowerTwice(s[..|prefix|]);
    }
  }

  lemma LowerDriveRoot(s: string)
    ensures SameRoot(DriveRoot(LowerAll(s)), DriveRoot(s))
  {
    LowerAllAt(s);
    if |s| >= 3 {
      LowerPrefix(s, 3);
    }
    if |s| >= 2 {
      assert Lower(s[1]) == ':' <==> s[1] == ':';
    }
  }

  lemma LowerCut(s: string)
    ensures BeforeSeparator(LowerAll(s)) == LowerAll(BeforeSeparator(s))
    ensures AfterSeparator(LowerAll(s)) == LowerAll(AfterSeparator(s))
  {
    var i := IndexOf(s, '\\');
    LowerIndex(s, '\\');
    LowerPrefix(s, i);
    if i < |s| {
      LowerPrefix(s, i + 1);
    }
  }

  lemma LowerUncRoot(s: string)
    ensures SameRoot(UncRoot(LowerAll(s)), UncRoot(s))
  {
    LowerCut(s);
    LowerCut(AfterSeparator(s));
    LowerUncText(BeforeSeparator(s), BeforeSeparator(AfterSeparator(s)));
  }

  lemma LowerUncText(host: string, share: string)
    ensures EqFold("\\\\" + LowerAll(host) + "\\" + LowerAll(share), "\\\\" + host + "\\" + share)
  {
    LowerConcat("\\\\" + host + "\\", share);
    LowerConcat("\\\\" + host, "\\");
    LowerConcat("\\\\", host);
    LowerConcat("\\\\" + LowerAll(host) + "\\", LowerAll(share));
    LowerConcat("\\\\" + LowerAll(host), "\\");
    LowerConcat("\\\\", LowerAll(host));
    LowerTwice(host);
    LowerTwice(share);
  }

  lemma LowerExactPrefix(s: string, prefix: string)
    requires forall c :: c in prefix ==> c == '\\' || c == '?'
    ensures prefix <= LowerAll(s) <==> prefix <= s
  {
    LowerAllAt(s);
    if |prefix| <= |s| {
      forall i | 0 <= i < |prefix| ensures LowerAll(s)[i] == prefix[i] <==> s[i] == prefix[i] {
        assert prefix[i] in prefix;
      }
    }
  }

  lemma LowerVerbatimRoot(s: string)
    ensures SameRoot(VerbatimRoot(LowerAll(s)), VerbatimRoot(s))
  {
    LowerStarts(s, "GLOBALROOT\\");
    LowerTwice(s);
    LowerDriveRoot(s);
  }

  lemma StartsLength(s: string, prefix: string)
    ensures StartsFold(s, prefix) ==> |prefix| <= |s|
  {
  }

  lemma LowerDevice(root: string, rest: string)
    ensures SameRoot(Ok(Root(Device, root, LowerAll(rest))), Ok(Root(Device, root, rest)))
  {
    hide LowerAll;
  }

  lemma LowerSplitRoot(s: string)
    ensures SameRoot(SplitRoot(LowerAll(s)), SplitRoot(s))
  {
    hide LowerAll; hide UncRoot; hide DriveRoot; hide VerbatimRoot; hide SameRoot; hide StartsFold;
    var l := LowerAll(s);
    LowerStarts(s, "\\\\?\\UNC\\");
    LowerStarts(s, "\\\\?\\");
    LowerStarts(s, "\\\\.\\");
    LowerExactPrefix(s, "\\??\\");
    LowerExactPrefix(s, "\\\\");
    assert SameRoot(DriveRoot(l), DriveRoot(s)) by { LowerDriveRoot(s); }
    if |s| >= 2 {
      assert SameRoot(UncRoot(l[2..]), UncRoot(s[2..])) by { LowerPrefix(s, 2); LowerUncRoot(s[2..]); }
    }
    StartsLength(s, "\\\\?\\UNC\\");
    StartsLength(s, "\\\\?\\");
    StartsLength(s, "\\\\.\\");
    if |s| >= 4 {
      LowerPrefix(s, 4);
      LowerDevice("\\\\.\\", s[4..]);
      LowerDevice("\\??\\", s[4..]);
      assert SameRoot(VerbatimRoot(l[4..]), VerbatimRoot(s[4..])) by { LowerVerbatimRoot(s[4..]); }
    }
    if |s| >= 8 {
      assert SameRoot(UncRoot(l[8..]), UncRoot(s[8..])) by { LowerPrefix(s, 8); LowerUncRoot(s[8..]); }
    }
  }

  /** One location in two letter cases: only a UNC root keeps its case. */
  ghost predicate SameInAnyCase(a: Result<CanonicalPath, PathError>, b: Result<CanonicalPath, PathError>) {
    match b
    case Err(_) => a == b
    case Ok(path) =>
      && a.Ok? && EqFold(a.value.text, path.text)
      && (path.kind != Unc ==> a.value.text == path.text)
      && a.value.(text := path.text) == path
  }

  lemma LowerTrimmed(s: string)
    ensures Trim(Unified(LowerAll(s))) == LowerAll(Trim(Unified(s)))
  {
    LowerUnified(s);
    LowerTrimStart(Unified(s));
    LowerTrimEnd(TrimStart(Unified(s)));
  }

  lemma LowerFinished(a: Root, b: Root, stack: Result<Stack, PathError>)
    requires a.kind == b.kind && EqFold(a.root, b.root) && (b.kind != Unc ==> a.root == b.root)
    ensures SameInAnyCase(Finished(a, stack), Finished(b, stack))
  {
    if stack.Ok? {
      LowerConcat(a.root, Rendered(stack.value.components));
      LowerConcat(b.root, Rendered(stack.value.components));
    }
  }

  lemma LowerCanonicalTrimmed(t: string)
    ensures SameInAnyCase(CanonicalTrimmed(LowerAll(t)), CanonicalTrimmed(t))
  {
    var ra, rb := SplitRoot(LowerAll(t)), SplitRoot(t);
    LowerSplitRoot(t);
    if rb.Ok? {
      LowerSplit(rb.value.rest);
      LowerPushAll(Stack([], false), Split(rb.value.rest, '\\'), rb.value.kind);
      LowerFinished(ra.value, rb.value, PushAll(Stack([], false), Split(rb.value.rest, '\\'), rb.value.kind));
    }
  }

  lemma CanonicalOfLower(s: string)
    ensures SameInAnyCase(Canonical(LowerAll(s)), Canonical(s))
  {
    LowerHas(s, '\0');
    LowerTrimmed(s);
    LowerCanonicalTrimmed(Trim(Unified(s)));
  }

  /** Two spellings that differ only in letter case are one location. */
  lemma CaseIsIgnored(s: string, t: string)
    requires EqFold(s, t)
    ensures SameInAnyCase(Canonical(s), Canonical(t))
  {
    CanonicalOfLower(s);
    CanonicalOfLower(t);
  }
}
