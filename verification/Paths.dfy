// Canonical path forms of core/src/safety/paths.rs: the namespace a path is in,
// a stack machine over its segments, and the text of the result.
module Paths {
  import opened Prelude
  import opened Text

  datatype Kind = DriveRooted | Unc | Device

  /** The source's errors, without the offending path they carry along. */
  datatype PathError =
    | EmptyPath
    | EmbeddedNul
    | NotAbsolute
    | EscapesRoot
    | MalformedUnc
    | DotsOnlyComponent
    | StreamSyntax

  datatype CanonicalPath = CanonicalPath(
    text: string,
    kind: Kind,
    drive: Option<char>,
    components: seq<string>,
    shortName: bool,
    resolvedViaHandle: bool)

  // ----- the root -----

  datatype Root = Root(kind: Kind, root: string, rest: string)

  predicate StartsFold(s: string, prefix: string) {
    |prefix| <= |s| && EqFold(s[..|prefix|], prefix)
  }

  /** `split_root`: the namespaces in the order the source tries them. */
  function SplitRoot(path: string): Result<Root, PathError> {
    if StartsFold(path, "\\\\?\\UNC\\") then UncRoot(path[8..])
    else if StartsFold(path, "\\\\?\\") then VerbatimRoot(path[4..])
    else if StartsFold(path, "\\\\.\\") then Ok(Root(Device, "\\\\.\\", path[4..]))
    else if "\\??\\" <= path then Ok(Root(Device, "\\??\\", path[4..]))
    else if "\\\\" <= path then UncRoot(path[2..])
    else DriveRoot(path)
  }

  /** After `\\?\`: a drive, or the device namespace by another name. */
  function VerbatimRoot(rest: string): Result<Root, PathError> {
    if StartsFold(rest, "GLOBALROOT\\") || EqFold(rest, "GLOBALROOT") then Ok(Root(Device, "\\\\?\\", rest))
    else DriveRoot(rest)
  }

  function DriveRoot(path: string): Result<Root, PathError> {
    if |path| >= 3 && IsLetter(path[0]) && path[1] == ':' && path[2] == '\\' then
      Ok(Root(DriveRooted, [Upper(path[0]), ':'], path[3..]))
    else if |path| == 2 && IsLetter(path[0]) && path[1] == ':' then
      Ok(Root(DriveRooted, [Upper(path[0]), ':'], ""))
    else Err(NotAbsolute)
  }

  function BeforeSeparator(s: string): string {
    s[..IndexOf(s, '\\')]
  }

  function AfterSeparator(s: string): string {
    if IndexOf(s, '\\') < |s| then s[IndexOf(s, '\\') + 1..] else ""
  }

  function UncRoot(path: string): Result<Root, PathError> {
    var host, share := BeforeSeparator(path), BeforeSeparator(AfterSeparator(path));
    if host == "" || share == "" then Err(MalformedUnc)
    else Ok(Root(Unc, "\\\\" + host + "\\" + share, AfterSeparator(AfterSeparator(path))))
  }

  // ----- the segments -----

  datatype Stack = Stack(components: seq<string>, shortName: bool)

  /** A segment without the dots and spaces Win32 strips from its end. */
  function Stem(raw: string): (s: string)
    ensures s <= raw
    ensures s == "" || (s[|s| - 1] != '.' && s[|s| - 1] != ' ')
  {
    if raw != "" && (raw[|raw| - 1] == '.' || raw[|raw| - 1] == ' ') then Stem(raw[..|raw| - 1]) else raw
  }

  /** An 8.3 alias: `NAME~N`, with any extension. */
  predicate IsShortName(segment: string) {
    var stem := segment[..IndexOf(segment, '.')];
    var tilde := LastIndexOf(stem, '~');
    tilde >= 0 && tilde + 1 < |stem| && AllDigits(stem[tilde + 1..])
  }

  function Push(stack: Stack, raw: string, kind: Kind): Result<Stack, PathError> {
    if raw == "" || raw == "." then Ok(stack)
    else if raw == ".." then
      if stack.components == [] then Err(EscapesRoot)
      else Ok(stack.(components := stack.components[..|stack.components| - 1]))
    else
      var segment := Stem(raw);
      if segment == "" then Err(DotsOnlyComponent)
      else if kind != Device && ':' in segment then Err(StreamSyntax)
      else Ok(Stack(stack.components + [UpperAll(segment)], stack.shortName || IsShortName(segment)))
  }

  function PushAll(stack: Stack, segments: seq<string>, kind: Kind): Result<Stack, PathError>
    decreases |segments|
  {
    if segments == [] then Ok(stack)
    else
      match Push(stack, segments[0], kind)
      case Err(error) => Err(error)
      case Ok(next) => PushAll(next, segments[1..], kind)
  }

  /** `normalise_components`: the loop that pushes and pops. */
  method NormaliseComponents(rest: string, kind: Kind) returns (r: Result<Stack, PathError>)
    ensures r == PushAll(Stack([], false), Split(rest, '\\'), kind)
  {
    var segments := Split(rest, '\\');
    var out: seq<string>, shortName := [], false;
    for n := 0 to |segments|
      invariant PushAll(Stack([], false), segments, kind) == PushAll(Stack(out, shortName), segments[n..], kind)
    {
      var raw := segments[n];
      if raw == "" || raw == "." {
      } else if raw == ".." {
        if out == [] {
          return Err(EscapesRoot);
        }
        out := out[..|out| - 1];
      } else {
        var segment := Stem(raw);
        if segment == "" {
          return Err(DotsOnlyComponent);
        }
        if kind != Device && ':' in segment {
          return Err(StreamSyntax);
        }
        if IsShortName(segment) {
          shortName := true;
        }
        out := out + [UpperAll(segment)];
      }
    }
    r := Ok(Stack(out, shortName));
  }

  // ----- the result -----

  function Rendered(components: seq<string>): string {
    if components == [] then "" else "\\" + components[0] + Rendered(components[1..])
  }

  /** `render`, which appends to a buffer. */
  method Render(kind: Kind, root: string, components: seq<string>) returns (text: string)
    ensures text == RenderedPath(kind, root, components)
  {
    text := root;
    if kind == DriveRooted && components == [] {
      text := text + "\\";
    }
    ghost var start := text;
    for n := 0 to |components|
      invariant start + Rendered(components) == text + Rendered(components[n..])
    {
      assert components[n..][1..] == components[n + 1..];
      text := text + "\\" + components[n];
    }
    assert text + "" == text;
  }

  function RenderedPath(kind: Kind, root: string, components: seq<string>): string {
    root + (if kind == DriveRooted && components == [] then "\\" else Rendered(components))
  }

  function Finished(root: Root, stack: Result<Stack, PathError>): Result<CanonicalPath, PathError> {
    match stack
    case Err(error) => Err(error)
    case Ok(Stack(components, shortName)) =>
      var drive := if root.kind == DriveRooted && root.root != "" then Some(Upper(root.root[0])) else None;
      Ok(CanonicalPath(RenderedPath(root.kind, root.root, components), root.kind, drive, components, shortName, false))
  }

  function CanonicalTrimmed(trimmed: string): Result<CanonicalPath, PathError> {
    if trimmed == "" then Err(EmptyPath)
    else
      match SplitRoot(trimmed)
      case Err(error) => Err(error)
      case Ok(root) => Finished(root, PushAll(Stack([], false), Split(root.rest, '\\'), root.kind))
  }

  /** `canonicalise_syntactic`, as a function of its input. */
  function Canonical(input: string): Result<CanonicalPath, PathError> {
    if '\0' in input then Err(EmbeddedNul) else CanonicalTrimmed(Trim(Unified(input)))
  }

  /** `canonicalise_resolved`: a path Windows has read back from a handle, which
      no 8.3 alias survives. */
  function CanonicalResolved(finalPath: string): Result<CanonicalPath, PathError> {
    match Canonical(finalPath)
    case Err(error) => Err(error)
    case Ok(path) => Ok(path.(resolvedViaHandle := true, shortName := false))
  }

  method Canonicalise(input: string) returns (r: Result<CanonicalPath, PathError>)
    ensures r == Canonical(input)
  {
    if '\0' in input {
      return Err(EmbeddedNul);
    }
    var trimmed := Trim(Unified(input));
    if trimmed == "" {
      return Err(EmptyPath);
    }
    var root := SplitRoot(trimmed);
    if root.Err? {
      return Err(root.error);
    }
    var stack := NormaliseComponents(root.value.rest, root.value.kind);
    if stack.Err? {
      return Err(stack.error);
    }
    var text := Render(root.value.kind, root.value.root, stack.value.components);
    var drive := if root.value.kind == DriveRooted && root.value.root != "" then Some(Upper(root.value.root[0])) else None;
    r := Ok(CanonicalPath(text, root.value.kind, drive, stack.value.components, stack.value.shortName, false));
  }
}
