// 8.3 aliases, from the text of a path to its refusal:
// core/src/safety/paths.rs, core/src/safety/denylist.rs.
module Aliases {
  import opened Prelude
  import opened Text
  import opened Paths
  import opened PathLaws
  import opened PathSpellings
  import opened DenyList

  predicate IsNumber(digits: string) {
    digits != "" && forall c :: c in digits ==> '0' <= c <= '9'
  }

  predicate IsExtension(ext: string) {
    ext == "" || ext[0] == '.'
  }

  /** `NAME~N`, with any extension and any name, none included. */
  ghost predicate IsAlias(s: string) {
    exists name, digits, ext :: AliasParts(s, name, digits, ext)
  }

  ghost predicate AliasParts(s: string, name: string, digits: string, ext: string) {
    s == name + ("~" + (digits + ext)) && '.' !in name && IsNumber(digits) && IsExtension(ext)
  }

  lemma DotEndsStem(stem: string, ext: string)
    requires '.' !in stem && IsExtension(ext)
    ensures (stem + ext)[..IndexOf(stem + ext, '.')] == stem
  {
    var s := stem + ext;
    assert forall i :: 0 <= i < |stem| ==> s[i] == stem[i] && stem[i] in stem;
    assert ext != "" ==> s[|stem|] == '.';
    assert IndexOf(s, '.') == |stem|;
  }

  lemma LastTilde(name: string, digits: string)
    requires IsNumber(digits)
    ensures LastIndexOf(name + ("~" + digits), '~') == |name|
  {
    hide LastIndexOf; hide IsNumber;
    var s := name + ("~" + digits);
    forall j | |name| < j < |s| ensures s[j] != '~' {
      AfterTilde(name, digits, j);
    }
    LastIs(s, '~', |name|);
  }

  lemma AfterTilde(name: string, digits: string, j: nat)
    requires IsNumber(digits) && |name| < j < |name + ("~" + digits)|
    ensures (name + ("~" + digits))[j] != '~'
  {
    hide IsNumber;
    assert (name + ("~" + digits))[j] == digits[j - |name| - 1];
    NoTilde(digits, j - |name| - 1);
  }

  lemma LastIs(s: string, c: char, i: nat)
    requires i < |s| && s[i] == c && forall j :: i < j < |s| ==> s[j] != c
    ensures LastIndexOf(s, c) == i
  {
  }

  lemma NoTilde(digits: string, i: nat)
    requires IsNumber(digits) && i < |digits|
    ensures digits[i] != '~'
  {
    assert digits[i] in digits;
  }

  lemma AliasIsShort(s: string, name: string, digits: string, ext: string)
    requires AliasParts(s, name, digits, ext)
    ensures IsShortName(s)
  {
    var stem := name + ("~" + digits);
    assert s == stem + ext;
    assert '.' !in stem;
    DotEndsStem(stem, ext);
    LastTilde(name, digits);
    assert stem[|name| + 1..] == digits;
  }

  lemma ShortIsAlias(s: string)
    requires IsShortName(s)
    ensures IsAlias(s)
  {
    var dot := IndexOf(s, '.');
    var stem, ext := s[..dot], s[dot..];
    var tilde := LastIndexOf(stem, '~');
    var name, digits := stem[..tilde], stem[tilde + 1..];
    assert '.' !in name && IsNumber(digits) && IsExtension(ext);
    assert stem[tilde] == '~' && s == name + ("~" + (digits + ext));
    assert AliasParts(s, name, digits, ext);
  }

  /** The test for an 8.3 alias finds exactly `NAME~N` with any extension: one
      digit is enough, and so is a name of none. */
  lemma ShortNamesAreAliases(s: string)
    ensures IsShortName(s) <==> IsAlias(s)
  {
    if IsShortName(s) {
      ShortIsAlias(s);
    }
    if name, digits, ext :| AliasParts(s, name, digits, ext) {
      AliasIsShort(s, name, digits, ext);
    }
  }

  /** What Win32 strips from the end of a segment is its last dots and spaces. */
  lemma {:induction false} StemLeavesDotsAndSpaces(raw: string)
    ensures Stem(raw) <= raw && DotsAndSpaces(raw[|Stem(raw)|..])
    ensures Stem(raw) != "" ==> Stem(raw)[|Stem(raw)| - 1] != '.' && Stem(raw)[|Stem(raw)| - 1] != ' '
  {
    if raw != "" && (raw[|raw| - 1] == '.' || raw[|raw| - 1] == ' ') {
      var n := |raw| - 1;
      StemLeavesDotsAndSpaces(raw[..n]);
      assert Stem(raw) == Stem(raw[..n]);
      hide Stem;
      OneMoreDot(raw, |Stem(raw)|);
    }
  }

  lemma OneMoreDot(raw: string, i: nat)
    requires raw != "" && i < |raw| && DotsAndSpaces(raw[..|raw| - 1][i..]) && (raw[|raw| - 1] == '.' || raw[|raw| - 1] == ' ')
    ensures DotsAndSpaces(raw[i..])
  {
    var n := |raw| - 1;
    assert raw[i..] == raw[..n][i..] + [raw[n]];
  }

  ghost predicate HasAlias(segments: seq<string>) {
    exists raw :: raw in segments && IsAlias(Stem(raw))
  }

  lemma NoAliasInDots(raw: string)
    requires raw == "" || raw == "." || raw == ".."
    ensures !IsAlias(Stem(raw))
  {
    assert Stem(raw) == "";
  }

  lemma PushFlags(stack: Stack, raw: string, kind: Kind)
    requires Push(stack, raw, kind).Ok?
    ensures Push(stack, raw, kind).value.shortName <==> stack.shortName || IsAlias(Stem(raw))
  {
    hide IsShortName; hide IsAlias; hide Stem; hide UpperAll;
    if raw == "" || raw == "." || raw == ".." {
      NoAliasInDots(raw);
    } else {
      ShortNamesAreAliases(Stem(raw));
    }
  }

  lemma {:induction false} PushAllFlags(stack: Stack, segments: seq<string>, kind: Kind)
    requires PushAll(stack, segments, kind).Ok?
    ensures PushAll(stack, segments, kind).value.shortName <==> stack.shortName || HasAlias(segments)
    decreases |segments|
  {
    hide Push; hide IsAlias; hide Stem;
    if segments != [] {
      PushFlags(stack, segments[0], kind);
      PushAllFlags(Push(stack, segments[0], kind).value, segments[1..], kind);
      assert segments == [segments[0]] + segments[1..];
    }
  }

  /** The segments a path is read in: what its root leaves, between separators. */
  function SegmentsOf(input: string): seq<string> {
    match SplitRoot(Trim(Unified(input)))
    case Err(_) => []
    case Ok(root) => Split(root.rest, '\\')
  }

  /** A path that is read is flagged exactly when one of its segments, without
      the dots and spaces at its end, is an alias. */
  lemma FlaggedExactlyForAliases(input: string)
    requires Canonical(input).Ok?
    ensures Canonical(input).value.shortName <==> HasAlias(SegmentsOf(input))
  {
    hide Trim; hide Unified; hide SplitRoot; hide PushAll; hide RenderedPath; hide Split; hide HasAlias;
    var root := SplitRoot(Trim(Unified(input))).value;
    PushAllFlags(Stack([], false), Split(root.rest, '\\'), root.kind);
  }

  /** And is then refused, whatever was declared and whatever it names. */
  lemma AliasesAreRefused(input: string, exceptions: Exceptions)
    requires Canonical(input).Ok? && HasAlias(SegmentsOf(input))
    ensures EvaluatePath(Canonical(input).value, exceptions, CatalogLoad) == Denied(EightDotThreeUnresolved)
    ensures !PathSafe(input, exceptions)
  {
    hide HasAlias; hide Canonical; hide SegmentsOf;
    FlaggedExactlyForAliases(input);
  }

  lemma SegmentsOfDrive(pre: string, tail: string)
    requires Drive(pre)
    ensures SegmentsOf(pre + "\\" + tail) == BelowDrive(pre) + Split(TrimEnd(Unified(tail)), '\\')
  {
    TrimmedDrive(pre, tail);
    SplitBelowDrive(pre, TrimEnd(Unified(tail)));
    hide Trim; hide Unified; hide SplitRoot; hide Split; hide TrimEnd; hide BelowDrive;
  }

  /** `X:\...\NAME~N\...`, from its text. */
  lemma AliasInPath(pre: string, alias: string, post: string, exceptions: Exceptions)
    requires Drive(pre) && '\\' !in alias && '/' !in alias && IsAlias(Stem(alias))
    ensures !PathSafe(pre + "\\" + alias + "\\" + post, exceptions)
  {
    var input := pre + "\\" + alias + "\\" + post;
    hide IsAlias; hide Canonical; hide SegmentsOf; hide Split; hide EvaluatePath; hide TrimEnd; hide Unified;
    if Canonical(input).Ok? {
      BelowLonger(pre, alias);
      SegmentsOfDrive(pre + "\\" + alias, post);
      UnifiedIsPlain(alias);
      SplitPiece(alias, '\\');
      assert alias in BelowDrive(pre) + [alias] + Split(TrimEnd(Unified(post)), '\\');
      AliasesAreRefused(input, exceptions);
    }
  }
}
