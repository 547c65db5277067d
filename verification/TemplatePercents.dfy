// What a `%` left in a template costs it: a template the catalog check passes
// has one root, a drive of its own or one variable, and never both.
// core/src/catalog/validate.rs, tools/observe/src/suggest.rs.
module TemplatePercents {
  import opened Prelude
  import opened Text
  import opened Paths
  import opened PathLaws
  import opened PathSpellings
  import opened DenyList
  import opened Expand
  import opened Templates
  import opened DraftedPaths
  import opened CatalogGate

  function Count(s: string, c: char): nat {
    if s == "" then 0 else Count(s[1..], c) + if s[0] == c then 1 else 0
  }

  lemma {:induction false} CountConcat(a: string, b: string, c: char)
    ensures Count(a + b, c) == Count(a, c) + Count(b, c)
  {
    if a == "" {
      assert a + b == b;
    } else {
      assert (a + b)[1..] == a[1..] + b;
      CountConcat(a[1..], b, c);
    }
  }

  lemma {:induction false} CountHolds(s: string, c: char)
    ensures Count(s, c) > 0 <==> c in s
  {
    if s != "" {
      CountHolds(s[1..], c);
      assert s == [s[0]] + s[1..];
    }
  }

  lemma CountOne(x: char, c: char)
    ensures Count([x], c) == if x == c then 1 else 0
  {
    assert [x][1..] == "";
  }

  // ----- a path that is read has one colon -----

  lemma {:induction false} CountUnified(s: string)
    ensures Count(Unified(s), ':') == Count(s, ':')
  {
    if s != "" {
      CountUnified(s[1..]);
    }
  }

  lemma {:induction false} CountTrimStart(s: string)
    ensures Count(TrimStart(s), ':') == Count(s, ':')
  {
    if s != "" && IsWhitespace(s[0]) {
      CountTrimStart(s[1..]);
    }
  }

  lemma {:induction false} CountTrimEnd(s: string)
    ensures Count(TrimEnd(s), ':') == Count(s, ':')
  {
    if s != "" && IsWhitespace(s[|s| - 1]) {
      var n := |s| - 1;
      CountTrimEnd(s[..n]);
      CountConcat(s[..n], [s[n]], ':');
      CountOne(s[n], ':');
      assert s == s[..n] + [s[n]];
    }
  }

  lemma PushedHasNoColon(stack: Stack, raw: string)
    requires Paths.Push(stack, raw, DriveRooted).Ok?
    ensures ':' !in raw
  {
    hide IsShortName; hide UpperAll;
    StemKeeps(raw);
    hide Stem;
  }

  lemma {:induction false} StemKeeps(raw: string)
    ensures ':' in raw ==> ':' in Stem(raw)
  {
    if raw != "" && (raw[|raw| - 1] == '.' || raw[|raw| - 1] == ' ') {
      StemKeeps(raw[..|raw| - 1]);
      assert raw == raw[..|raw| - 1] + [raw[|raw| - 1]];
    }
  }

  lemma {:induction false} AllPushedHaveNoColon(stack: Stack, segments: seq<string>)
    requires PushAll(stack, segments, DriveRooted).Ok?
    ensures forall raw :: raw in segments ==> ':' !in raw
    decreases |segments|
  {
    hide Paths.Push;
    if segments != [] {
      PushedHasNoColon(stack, segments[0]);
      AllPushedHaveNoColon(Paths.Push(stack, segments[0], DriveRooted).value, segments[1..]);
      assert segments == [segments[0]] + segments[1..];
    }
  }

  lemma RestHasNoColon(rest: string)
    requires PushAll(Stack([], false), Split(rest, '\\'), DriveRooted).Ok?
    ensures ':' !in rest
  {
    hide PushAll; hide Split; hide Rendered;
    AllPushedHaveNoColon(Stack([], false), Split(rest, '\\'));
    RenderedSplit(rest);
    RenderedCharacters(Split(rest, '\\'), ':');
    assert ':' !in "\\" + rest;
  }

  lemma DriveRootColon(t: string)
    requires DriveRoot(t).Ok? && ':' !in DriveRoot(t).value.rest
    ensures Count(t, ':') == 1
  {
    var tail := t[2..];
    assert tail != "" ==> tail == ['\\'] + t[3..];
    CountHolds(tail, ':');
    CountConcat(t[..2], tail, ':');
    CountConcat([t[0]], [t[1]], ':');
    CountOne(t[0], ':');
    CountOne(t[1], ':');
    assert t == t[..2] + tail && t[..2] == [t[0]] + [t[1]];
  }

  lemma VerbatimHasNoColon(t: string)
    requires StartsFold(t, "\\\\?\\")
    ensures |t| >= 4 && Count(t, ':') == Count(t[4..], ':')
  {
    var prefix := "\\\\?\\";
    hide LowerAll;
    assert EqFold(t[..4], prefix);
    LowerHas(t[..4], ':');
    LowerHas(prefix, ':');
    CountHolds(t[..4], ':');
    CountConcat(t[..4], t[4..], ':');
    assert t == t[..4] + t[4..];
  }

  lemma RootColon(t: string)
    requires SplitRoot(t).Ok? && SplitRoot(t).value.kind == DriveRooted && ':' !in SplitRoot(t).value.rest
    ensures Count(t, ':') == 1
  {
    hide StartsFold; hide EqFold; hide DriveRoot; hide IndexOf; hide Count;
    if StartsFold(t, "\\\\?\\") {
      VerbatimHasNoColon(t);
      DriveRootColon(t[4..]);
    } else {
      DriveRootColon(t);
    }
  }

  /** A drive-rooted path is its drive's colon and nothing with another. */
  lemma OneColon(path: string)
    requires Canonical(path).Ok? && Canonical(path).value.kind == DriveRooted
    ensures Count(path, ':') == 1
  {
    hide Trim; hide Unified; hide SplitRoot; hide PushAll; hide RenderedPath; hide Split; hide Count;
    var t := Trim(Unified(path));
    RestHasNoColon(SplitRoot(t).value.rest);
    RootColon(t);
    CountTrim(Unified(path));
    CountUnified(path);
  }

  lemma CountTrim(s: string)
    ensures Count(Trim(s), ':') == Count(s, ':')
  {
    CountTrimStart(s);
    CountTrimEnd(TrimStart(s));
  }

  // ----- and a template, one root -----

  function Variables(pieces: seq<Piece>): nat {
    if pieces == [] then 0 else Variables(pieces[1..]) + if pieces[0].Variable? then 1 else 0
  }

  /** Text with no `%`, or the name of a known variable. */
  predicate Good(piece: Piece) {
    match piece
    case Literal(text) => '%' !in text
    case Variable(name) => '%' !in name && IsKnown(name)
  }

  lemma {:induction false} PiecesAreGood(template: string)
    requires Pieces(template).Ok?
    ensures forall i :: 0 <= i < |Pieces(template).value| ==> Good(Pieces(template).value[i])
    decreases |template|
  {
    hide IsKnown;
    match CutAt(template) {
      case NoVariable =>
      case Cut(literal, name, rest) => PiecesAreGood(rest);
    }
  }

  lemma VariableText(name: string, c: char)
    ensures Count(PieceText(Variable(name)), c) == Count(name, c) + if c == '%' then 2 else 0
  {
    CountConcat("%", name + "%", c);
    CountConcat(name, "%", c);
    CountOne('%', c);
  }

  lemma PiecePercents(piece: Piece)
    requires Good(piece)
    ensures Count(PieceText(piece), '%') == if piece.Variable? then 2 else 0
  {
    hide Count; hide IsKnown;
    match piece {
      case Literal(text) => CountHolds(text, '%');
      case Variable(name) =>
        VariableText(name, '%');
        CountHolds(name, '%');
    }
  }

  lemma {:induction false} Percents(pieces: seq<Piece>)
    requires forall i :: 0 <= i < |pieces| ==> Good(pieces[i])
    ensures Count(Spelled(pieces), '%') == 2 * Variables(pieces)
  {
    hide Good; hide PieceText;
    if pieces != [] {
      Percents(pieces[1..]);
      PiecePercents(pieces[0]);
      CountConcat(PieceText(pieces[0]), Spelled(pieces[1..]), '%');
    }
  }

  lemma KnownHasNoColon(name: string)
    requires IsKnown(name)
    ensures Count(name, ':') == 0
  {
    var i :| 0 <= i < |KnownVariables()| && EqFold(KnownVariables()[i], name);
    NamesHaveNoColon();
    hide LowerAll;
    LowerHas(KnownVariables()[i], ':');
    LowerHas(name, ':');
    CountHolds(name, ':');
  }

  lemma NamesHaveNoColon()
    ensures forall i :: 0 <= i < |KnownVariables()| ==> ':' !in KnownVariables()[i]
  {
  }

  /** Every value of a variable begins with a drive. */
  lemma ValuesHaveAColon(known: string, value: string)
    requires CandidatesFor(known).Some? && value in CandidatesFor(known).value
    ensures ':' in value
  {
    assert |value| > 1 && value[1] == ':';
  }

  lemma ChoiceColons(piece: Piece, choice: string)
    requires Good(piece) && choice in Choices(piece, Candidates)
    ensures Count(choice, ':') >= Count(PieceText(piece), ':') + if piece.Variable? then 1 else 0
  {
    hide Count; hide UpperAll; hide CandidatesFor; hide IsKnown;
    match piece {
      case Literal(_) =>
      case Variable(name) =>
        VariableText(name, ':');
        KnownHasNoColon(name);
        ValuesHaveAColon(UpperAll(name), choice);
        CountHolds(choice, ':');
    }
  }

  lemma {:induction false} FilledColons(pieces: seq<Piece>, x: string)
    requires forall i :: 0 <= i < |pieces| ==> Good(pieces[i])
    requires x in Filled(pieces, Candidates)
    ensures Count(x, ':') >= Count(Spelled(pieces), ':') + Variables(pieces)
  {
    hide Good; hide Choices; hide PieceText;
    if pieces != [] {
      InProduct(x, Choices(pieces[0], Candidates), Filled(pieces[1..], Candidates));
      var a, b :| a in Choices(pieces[0], Candidates) && b in Filled(pieces[1..], Candidates) && x == a + b;
      FilledColons(pieces[1..], b);
      ChoiceColons(pieces[0], a);
      CountConcat(a, b, ':');
      CountConcat(PieceText(pieces[0]), Spelled(pieces[1..]), ':');
    }
  }

  function UpperNames(): seq<string> {
    ["PROGRAMFILES", "PROGRAMFILES(X86)", "PROGRAMDATA", "LOCALAPPDATA", "APPDATA", "USERPROFILE", "SYSTEMROOT",
     "PUBLIC", "STEAM_LIBRARY", "EPIC_LIBRARY"]
  }

  lemma NamesHaveValues(i: nat)
    requires i < |UpperNames()|
    ensures CandidatesFor(UpperNames()[i]).Some? && CandidatesFor(UpperNames()[i]).value != []
  {
  }

  predicate IsUpperOf(s: string, t: string) {
    |s| == |t| && forall i :: 0 <= i < |s| ==> Upper(s[i]) == t[i]
  }

  lemma FirstNames()
    ensures forall i :: 0 <= i < 5 ==> IsUpperOf(KnownVariables()[i], UpperNames()[i])
  {
  }

  lemma OtherNames()
    ensures forall i :: 5 <= i < |KnownVariables()| ==> IsUpperOf(KnownVariables()[i], UpperNames()[i])
  {
  }

  lemma NamesInUpperCase(i: nat)
    requires i < |KnownVariables()|
    ensures i < |UpperNames()| && UpperAll(KnownVariables()[i]) == UpperNames()[i]
  {
    FirstNames();
    OtherNames();
    assert |KnownVariables()| == |UpperNames()|;
    hide UpperAll; hide KnownVariables; hide UpperNames;
    Uppers(KnownVariables()[i], UpperNames()[i]);
  }

  lemma KnownHasAValue(name: string)
    requires IsKnown(name)
    ensures Choices(Variable(name), Candidates) != []
  {
    hide UpperAll; hide EqFold; hide KnownVariables; hide UpperNames; hide CandidatesFor;
    var i :| 0 <= i < |KnownVariables()| && EqFold(KnownVariables()[i], name);
    EqFoldIsUpper(KnownVariables()[i], name);
    NamesInUpperCase(i);
    NamesHaveValues(i);
  }

  lemma {:induction false} SomethingIsFilled(pieces: seq<Piece>) returns (x: string)
    requires forall i :: 0 <= i < |pieces| ==> Good(pieces[i])
    ensures x in Filled(pieces, Candidates)
  {
    hide IsKnown; hide Candidates; hide Product;
    if pieces == [] {
      x := "";
    } else {
      var b := SomethingIsFilled(pieces[1..]);
      if pieces[0].Variable? {
        KnownHasAValue(pieces[0].name);
      }
      var a := Choices(pieces[0], Candidates)[0];
      x := a + b;
      InProduct(x, Choices(pieces[0], Candidates), Filled(pieces[1..], Candidates));
    }
  }

  /** One expansion of a template, and its colons. */
  lemma SomeExpansion(template: string) returns (x: string)
    requires ValidationExpansions(template).Ok?
    ensures x in ValidationExpansions(template).value
    ensures Count(template, '%') % 2 == 0
    ensures Count(x, ':') >= Count(template, ':') + Count(template, '%') / 2
    ensures '%' !in template ==> x == template
  {
    hide Good; hide Count; hide Pieces; hide Filled; hide Variables; hide Spelled; hide Candidates; hide CutAt;
    var pieces := Pieces(template).value;
    PiecesAreGood(template);
    PiecesSpellTheTemplate(template);
    x := SomethingIsFilled(pieces);
    Percents(pieces);
    FilledColons(pieces, x);
    if '%' !in template {
      NoPercent(template);
      NoVariables(template, Candidates);
    }
  }

  /** A template the check passes is rooted once: at a drive of its own, with no
      variable, or at one variable, with no drive. */
  lemma CheckedTemplateHasOneRoot(template: string, exceptions: Exceptions)
    requires TemplateFaults(template, exceptions) == []
    ensures if '%' in template then ':' !in template && Count(template, '%') == 2 else Count(template, ':') == 1
  {
    hide Count; hide ValidationExpansions; hide Canonical; hide EvaluatePath; hide ExpansionFaults;
    var x := SomeExpansion(template);
    ExpansionsSafe(ValidationExpansions(template).value, exceptions);
    assert PathSafe(x, exceptions);
    AllowedPaths(Canonical(x).value, exceptions, CatalogLoad);
    OneColon(x);
    CountHolds(template, '%');
    CountHolds(template, ':');
  }

  // ----- a draft that keeps one -----

  lemma InVariablePercents(name: string, tail: string)
    ensures Count(InVariable(name, tail), '%') >= 2 + Count(tail, '%')
  {
    CountConcat("%", name + ("%" + tail), '%');
    CountConcat(name, "%" + tail, '%');
    CountConcat("%", tail, '%');
    CountOne('%', '%');
  }

  lemma VariableKeepsPercent(name: string, tail: string, exceptions: Exceptions)
    requires '%' in tail
    ensures TemplateFaults(InVariable(name, tail), exceptions) != []
  {
    hide Count; hide InVariable; hide TemplateFaults;
    InVariablePercents(name, tail);
    CountHolds(tail, '%');
    CountHolds(InVariable(name, tail), '%');
    if TemplateFaults(InVariable(name, tail), exceptions) == [] {
      CheckedTemplateHasOneRoot(InVariable(name, tail), exceptions);
    }
  }

  lemma PrefixesArePlain(location: Location)
    requires location in MACHINE || location in PROFILE
    ensures '%' !in location.prefix
  {
    SystemPlain();
    ProfileIsPlain();
    assert location in MACHINE ==> AllPlain([location.prefix]) && location.prefix in [location.prefix];
  }

  lemma ProfileIsPlain()
    ensures forall i :: 0 <= i < |PROFILE| ==> '%' !in PROFILE[i].prefix
  {
  }

  lemma TailKeepsPercent(path: string, prefix: string)
    requires WithoutComponents(path, prefix).Some? && '%' in path && '%' !in prefix
    ensures '%' in WithoutComponents(path, prefix).value
  {
    hide LowerAll;
    var n := |prefix|;
    LowerHas(path[..n], '%');
    LowerHas(prefix, '%');
    assert path == path[..n] + path[n..];
  }

  lemma LocationKeepsPercent(path: string, locations: seq<Location>, exceptions: Exceptions)
    requires locations == MACHINE || locations == PROFILE
    requires '%' in path && InLocation(path, locations).Some?
    ensures TemplateFaults(InLocation(path, locations).value, exceptions) != []
  {
    hide TemplateFaults; hide InLocation; hide WithoutComponents; hide InVariable;
    var location, tail := InLocationHolds(path, locations);
    PrefixesArePlain(location);
    TailKeepsPercent(path, location.prefix);
    VariableKeepsPercent(location.variable, tail, exceptions);
  }

  lemma PathKeepsPercent(path: string, exceptions: Exceptions)
    requires '%' in path && PathSafe(path, exceptions)
    ensures TemplateFaults(path, exceptions) != []
  {
    hide Count; hide TemplateFaults; hide Canonical; hide EvaluatePath;
    AllowedPaths(Canonical(path).value, exceptions, CatalogLoad);
    OneColon(path);
    CountHolds(path, ':');
    if TemplateFaults(path, exceptions) == [] {
      CheckedTemplateHasOneRoot(path, exceptions);
    }
  }

  /** No allowed path whose template keeps a `%` of its own is drafted well: the
      `%` opens a variable that is never closed or known, or one whose value is
      a second drive. */
  lemma PercentIsRefused(path: string, exceptions: Exceptions)
    requires PathSafe(path, exceptions) && !KeepsNoPercent(path)
    ensures TemplateFaults(Templated(path), exceptions) != []
  {
    hide TemplateFaults; hide PathSafe; hide InLocation; hide EqFold; hide InVariable;
    match SplitProfile(path)
    case None =>
      hide SplitProfile;
      if InLocation(path, MACHINE).Some? {
        LocationKeepsPercent(path, MACHINE, exceptions);
      } else {
        PathKeepsPercent(path, exceptions);
      }
    case Some((profile, rest)) =>
      hide SplitProfile;
      VariableKeepsPercent("PUBLIC", rest, exceptions);
      VariableKeepsPercent("USERPROFILE", rest, exceptions);
      var inner := WithoutSeparator(rest);
      assert '%' in inner by { SeparatorIsNoPercent(rest); }
      if InLocation(inner, PROFILE).Some? {
        LocationKeepsPercent(inner, PROFILE, exceptions);
      }
  }

  lemma SeparatorIsNoPercent(rest: string)
    requires '%' in rest
    ensures '%' in WithoutSeparator(rest)
  {
    assert rest == [rest[0]] + rest[1..];
  }

  // ----- one of them -----

  const LONE: string := "D:\\a\\%"

  lemma LoneForm()
    ensures Canonical(LONE) == DrivePath('D', Ok(Stack(["A", "%"], false)))
  {
    hide Canonical; hide Split; hide PushAll; hide DrivePath; hide TrimEnd; hide Unified;
    LonePieces("a", "%");
    LonePushed("a", "%");
    LoneSpelled("D:", "a\\%");
    DriveForm("D:", "a\\%");
    assert [] + ["a", "%"] == ["a", "%"];
  }

  lemma LoneSpelled(pre: string, post: string)
    requires pre == "D:" && post == "a\\%"
    ensures pre + "\\" + post == LONE && Drive(pre) && '\0' !in pre && BelowDrive(pre) == []
  {
  }

  lemma LonePieces(a: string, b: string)
    requires a == "a" && b == "%"
    ensures Split(TrimEnd(Unified("a\\%")), '\\') == [a, b] && '\0' !in "a\\%"
  {
    var post := "a\\%";
    assert post == a + ['\\'] + b;
    UnifiedIsPlain(post);
    hide Unified; hide Split;
    assert TrimEnd(post) == post;
    SplitAt(a, b, '\\');
    SplitPiece(a, '\\');
    SplitPiece(b, '\\');
  }

  lemma LonePushed(a: string, b: string)
    requires a == "a" && b == "%"
    ensures PushAll(Stack([], false), [a, b], DriveRooted) == Ok(Stack(["A", "%"], false))
  {
    hide UpperAll; hide IsShortName; hide Paths.Push;
    Uppers(a, "A");
    PushPlain(Stack([], false), a, "A");
    LastPushed(b);
    assert [a, b][1..] == [b] && [] + ["A"] == ["A"];
    PushOne(Stack(["A"], false), b);
  }

  lemma LastPushed(b: string)
    requires b == "%"
    ensures Paths.Push(Stack(["A"], false), b, DriveRooted) == Ok(Stack(["A", "%"], false))
  {
    hide UpperAll; hide IsShortName;
    Uppers(b, "%");
    NoTilde(b);
    assert Stem(b) == b && ["A"] + ["%"] == ["A", "%"];
  }

  lemma NoTilde(s: string)
    requires '~' !in s
    ensures !IsShortName(s)
  {
    var stem := s[..IndexOf(s, '.')];
    assert forall i :: 0 <= i < |stem| ==> stem[i] == s[i] && s[i] in s;
    assert LastIndexOf(stem, '~') < 0;
  }

  lemma LoneIsSpared(c: seq<string>)
    requires c == ["A", "%"]
    ensures !EqualsAny(c, Containers()) && !StartsWithAny(c, WindowsData())
    ensures !StartsWithPattern(c, ["ProgramData", "Microsoft"])
  {
    TablesSpare();
    hide Containers; hide WindowsData;
    forall i | 0 <= i < |Containers()| ensures !StartsWithPattern(c, Containers()[i]) {
      PatternDiffers(c, Containers()[i], 0);
    }
    forall i | 0 <= i < |WindowsData()| ensures !StartsWithPattern(c, WindowsData()[i]) {
      PatternDiffers(c, WindowsData()[i], 0);
    }
    PatternDiffers(c, ["ProgramData", "Microsoft"], 0);
    hide StartsWithPattern;
  }

  lemma NoLeafBegins()
    ensures NoneBegins(LibraryLeaves(), '%')
  {
  }

  lemma LoneIsAllowed(p: CanonicalPath, exceptions: Exceptions)
    requires p.components == ["A", "%"] && p.kind == DriveRooted && !p.shortName
    ensures EvaluatePath(p, exceptions, CatalogLoad) == Allowed
  {
    hide Containers; hide WindowsData; hide AnyFold; hide StartsWithPattern; hide StartsWithAny; hide EqualsAny; hide EqFold;
    hide ProtectedTopLevel; hide LibraryLeaves; hide SteamappsContainers;
    var c := p.components;
    LoneIsSpared(c);
    TablesBegin();
    NoneIs(ProtectedTopLevel(), c[0]);
    NoLeafBegins();
    NoneIs(LibraryLeaves(), "%");
    FirstDiffers("A", "STEAMAPPS");
    assert UserHiveFiles() == ["NTUSER.DAT", "USRCLASS.DAT"];
    assert "NTUSER.DAT"[0] == 'N' && "USRCLASS.DAT"[0] == 'U' && "%"[0] == '%';
    assert !IsUserHive("%");
  }

  lemma LoneTemplate()
    ensures Templated(LONE) == LONE && !KeepsNoPercent(LONE)
    ensures ValidationExpansions(LONE) == Err(UnterminatedVariable)
  {
    hide EqFold; hide IsKnown;
    assert LONE[3..] == "a\\%";
    assert SplitProfile(LONE) == None;
    assert InLocation(LONE, MACHINE) == None by { LongPrefixes(LONE, MACHINE); }
    assert LONE[5] == '%';
    hide SplitProfile; hide InLocation;
    var start := IndexOf(LONE, '%');
    assert start == 5 && LONE[start + 1..] == "";
    assert CutAt(LONE) == Bad(UnterminatedVariable);
  }

  lemma {:induction false} LongPrefixes(path: string, locations: seq<Location>)
    requires forall i :: 0 <= i < |locations| ==> |locations[i].prefix| > |path|
    ensures InLocation(path, locations) == None
  {
    if locations != [] {
      LongPrefixes(path, locations[1..]);
    }
  }

  /** A file of `D:\a\%`, an ordinary directory, is drafted as a template that
      cannot be expanded. */
  lemma LonePercentFails(exceptions: Exceptions)
    ensures PathSafe("D:\\a\\%", exceptions)
    ensures TemplateFaults(Templated("D:\\a\\%"), exceptions) == [CannotExpand(UnterminatedVariable)]
  {
    hide Canonical; hide EvaluatePath; hide Templated; hide KeepsNoPercent; hide ValidationExpansions;
    LoneForm();
    LoneIsAllowed(Canonical(LONE).value, exceptions);
    LoneTemplate();
  }
}
