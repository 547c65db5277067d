// Expansion of the `%VAR%` placeholders of a catalog path:
// core/src/catalog/expand.rs.
module Expand {
  import opened Prelude
  import opened Text

  datatype ExpandError = UnknownVariable(name: string) | UnterminatedVariable

  function KnownVariables(): seq<string> {
    ["ProgramFiles", "ProgramFiles(x86)", "ProgramData", "LOCALAPPDATA", "APPDATA", "USERPROFILE", "SystemRoot",
     "PUBLIC", "STEAM_LIBRARY", "EPIC_LIBRARY"]
  }

  predicate IsKnown(name: string) {
    exists i :: 0 <= i < |KnownVariables()| && EqFold(KnownVariables()[i], name)
  }

  datatype Piece = Literal(text: string) | Variable(name: string)

  datatype Cut =
    | NoVariable
    | Bad(error: ExpandError)
    | Cut(literal: string, name: string, rest: string)

  /** A template up to its first variable, the variable, and what follows. */
  function CutAt(template: string): (cut: Cut)
    ensures cut.Cut? ==> |cut.rest| < |template|
  {
    var start := IndexOf(template, '%');
    if start == |template| then NoVariable
    else
      var after := template[start + 1..];
      var end := IndexOf(after, '%');
      if end == |after| then Bad(UnterminatedVariable)
      else if !IsKnown(after[..end]) then Bad(UnknownVariable(after[..end]))
      else Cut(template[..start], after[..end], after[end + 1..])
  }

  /** A template taken apart at its `%` signs. */
  function Pieces(template: string): Result<seq<Piece>, ExpandError>
    decreases |template|
  {
    match CutAt(template)
    case NoVariable => Ok([Literal(template)])
    case Bad(error) => Err(error)
    case Cut(literal, name, rest) =>
      match Pieces(rest)
      case Err(error) => Err(error)
      case Ok(more) => Ok([Literal(literal), Variable(name)] + more)
  }

  /** What a piece can stand for. */
  function Choices(piece: Piece, values: string -> Option<seq<string>>): seq<string> {
    match piece
    case Literal(text) => [text]
    case Variable(name) => (match values(name) case Some(list) => list case None => [])
  }

  function Prefixed(a: string, bs: seq<string>): seq<string> {
    if bs == [] then [] else [a + bs[0]] + Prefixed(a, bs[1..])
  }

  /** Every one of `xs` before every one of `ys`, the first outermost. */
  function Product(xs: seq<string>, ys: seq<string>): seq<string> {
    if xs == [] then [] else Prefixed(xs[0], ys) + Product(xs[1..], ys)
  }

  function Filled(pieces: seq<Piece>, values: string -> Option<seq<string>>): seq<string> {
    if pieces == [] then [""] else Product(Choices(pieces[0], values), Filled(pieces[1..], values))
  }

  function Expansions(template: string, values: string -> Option<seq<string>>): Result<seq<string>, ExpandError> {
    match Pieces(template)
    case Err(error) => Err(error)
    case Ok(pieces) => Ok(Filled(pieces, values))
  }

  lemma {:induction false} PrefixedTwice(a: string, b: string, cs: seq<string>)
    ensures Prefixed(a, Prefixed(b, cs)) == Prefixed(a + b, cs)
  {
    if cs != [] {
      PrefixedTwice(a, b, cs[1..]);
      assert Prefixed(b, cs)[1..] == Prefixed(b, cs[1..]);
      assert a + (b + cs[0]) == a + b + cs[0];
    }
  }

  lemma {:induction false} PrefixedConcat(a: string, bs: seq<string>, cs: seq<string>)
    ensures Prefixed(a, bs + cs) == Prefixed(a, bs) + Prefixed(a, cs)
  {
    if bs == [] {
      assert bs + cs == cs;
    } else {
      assert (bs + cs)[1..] == bs[1..] + cs;
      PrefixedConcat(a, bs[1..], cs);
    }
  }

  lemma {:induction false} ProductConcat(xs: seq<string>, ys: seq<string>, zs: seq<string>)
    ensures Product(xs + ys, zs) == Product(xs, zs) + Product(ys, zs)
  {
    if xs == [] {
      assert xs + ys == ys;
    } else {
      assert (xs + ys)[1..] == xs[1..] + ys;
      ProductConcat(xs[1..], ys, zs);
    }
  }

  lemma {:induction false} PrefixedProduct(a: string, ys: seq<string>, zs: seq<string>)
    ensures Product(Prefixed(a, ys), zs) == Prefixed(a, Product(ys, zs))
  {
    if ys != [] {
      PrefixedProduct(a, ys[1..], zs);
      PrefixedTwice(a, ys[0], zs);
      PrefixedConcat(a, Prefixed(ys[0], zs), Product(ys[1..], zs));
      assert Prefixed(a, ys)[1..] == Prefixed(a, ys[1..]);
    }
  }

  lemma {:induction false} ProductAssociates(xs: seq<string>, ys: seq<string>, zs: seq<string>)
    ensures Product(Product(xs, ys), zs) == Product(xs, Product(ys, zs))
  {
    if xs != [] {
      ProductAssociates(xs[1..], ys, zs);
      ProductConcat(Prefixed(xs[0], ys), Product(xs[1..], ys), zs);
      PrefixedProduct(xs[0], ys, zs);
    }
  }

  lemma {:induction false} PrefixedEmpty(bs: seq<string>)
    ensures Prefixed("", bs) == bs
  {
    if bs != [] {
      PrefixedEmpty(bs[1..]);
      assert "" + bs[0] == bs[0];
    }
  }

  lemma ProductOfOne(a: string, bs: seq<string>)
    ensures Product([a], bs) == Prefixed(a, bs)
    ensures Product([""], bs) == bs
  {
    PrefixedEmpty(bs);
    assert Product([a][1..], bs) == [];
    assert Product([""][1..], bs) == [];
  }

  /** `flat_map` over the results so far: each with the literal and a value. */
  method Extended(results: seq<string>, literal: string, list: seq<string>) returns (next: seq<string>)
    ensures next == Product(results, Product([literal], list))
  {
    next := [];
    ProductOfOne(literal, list);
    for i := 0 to |results|
      invariant next == Product(results[..i], Prefixed(literal, list))
    {
      var prefix, one := results[i] + literal, [];
      for j := 0 to |list|
        invariant one == Prefixed(prefix, list[..j])
      {
        PrefixedConcat(prefix, list[..j], [list[j]]);
        assert list[..j + 1] == list[..j] + [list[j]];
        one := one + [prefix + list[j]];
      }
      assert list[..|list|] == list;
      PrefixedTwice(results[i], literal, list);
      ProductConcat(results[..i], [results[i]], Prefixed(literal, list));
      ProductOfOne(results[i], Prefixed(literal, list));
      assert results[..i + 1] == results[..i] + [results[i]];
      next := next + one;
    }
    assert results[..|results|] == results;
  }

  /** What is left of an expansion after some results. */
  function Onward(results: seq<string>, rest: Result<seq<string>, ExpandError>): Result<seq<string>, ExpandError> {
    match rest
    case Err(error) => Err(error)
    case Ok(more) => Ok(Product(results, more))
  }

  lemma OneVariable(template: string, values: string -> Option<seq<string>>, results: seq<string>)
    requires CutAt(template).Cut?
    ensures var cut := CutAt(template);
            Onward(results, Expansions(template, values))
            == Onward(Product(results, Product([cut.literal], Choices(Variable(cut.name), values))), Expansions(cut.rest, values))
  {
    var cut := CutAt(template);
    if Pieces(cut.rest).Ok? {
      FilledTwo(Literal(cut.literal), Variable(cut.name), Pieces(cut.rest).value, values);
      var more, choices := Filled(Pieces(cut.rest).value, values), Choices(Variable(cut.name), values);
      ProductAssociates([cut.literal], choices, more);
      ProductAssociates(results, Product([cut.literal], choices), more);
    }
  }

  lemma FilledTwo(a: Piece, b: Piece, more: seq<Piece>, values: string -> Option<seq<string>>)
    ensures Filled([a, b] + more, values)
         == Product(Choices(a, values), Product(Choices(b, values), Filled(more, values)))
  {
    assert ([a, b] + more)[1..] == [b] + more && ([b] + more)[1..] == more;
  }

  /** `expand_with`. */
  method ExpandWith(template: string, values: string -> Option<seq<string>>) returns (r: Result<seq<string>, ExpandError>)
    ensures r == Expansions(template, values)
  {
    var results, rest, cut := [""], template, CutAt(template);
    if Expansions(template, values).Ok? {
      ProductOfOne("", Expansions(template, values).value);
    }
    while cut.Cut?
      invariant cut == CutAt(rest)
      invariant Expansions(template, values) == Onward(results, Expansions(rest, values))
      decreases |rest|
    {
      OneVariable(rest, values, results);
      results := Extended(results, cut.literal, Choices(Variable(cut.name), values));
      rest := cut.rest;
      cut := CutAt(rest);
    }
    if cut.Bad? {
      return Err(cut.error);
    }
    NoVariables(rest, values);
    var ended := Appended(results, rest);
    r := Ok(ended);
  }

  lemma NoVariables(rest: string, values: string -> Option<seq<string>>)
    requires CutAt(rest) == NoVariable
    ensures Expansions(rest, values) == Ok([rest])
  {
    var pieces := [Literal(rest)];
    assert Filled(pieces[1..], values) == [""];
    assert Filled(pieces, values) == Product([rest], [""]);
    ProductOfOne(rest, [""]);
    assert Prefixed(rest, [""]) == [rest] by { assert rest + "" == rest && [""][1..] == []; }
  }

  /** The loop that appends what follows the last variable. */
  method Appended(results: seq<string>, rest: string) returns (ended: seq<string>)
    ensures ended == Product(results, [rest])
  {
    ended := [];
    for i := 0 to |results|
      invariant ended == Product(results[..i], [rest])
    {
      ProductConcat(results[..i], [results[i]], [rest]);
      ProductOfOne(results[i], [rest]);
      assert results[..i + 1] == results[..i] + [results[i]];
      ended := ended + [results[i] + rest];
    }
    assert results[..|results|] == results;
  }

  // ----- what the expansions are -----

  function Concat(parts: seq<string>): string {
    if parts == [] then "" else parts[0] + Concat(parts[1..])
  }

  /** One choice for each piece. */
  ghost predicate Chosen(pieces: seq<Piece>, values: string -> Option<seq<string>>, choice: seq<string>) {
    |choice| == |pieces| && forall i :: 0 <= i < |pieces| ==> choice[i] in Choices(pieces[i], values)
  }

  lemma {:induction false} InPrefixed(x: string, a: string, bs: seq<string>)
    ensures x in Prefixed(a, bs) <==> exists b :: b in bs && x == a + b
  {
    if bs != [] {
      InPrefixed(x, a, bs[1..]);
    }
  }

  lemma {:induction false} InProduct(x: string, xs: seq<string>, ys: seq<string>)
    ensures x in Product(xs, ys) <==> exists a, b :: a in xs && b in ys && x == a + b
  {
    if xs != [] {
      InPrefixed(x, xs[0], ys);
      InProduct(x, xs[1..], ys);
    }
  }

  lemma ChosenCons(pieces: seq<Piece>, values: string -> Option<seq<string>>, choice: seq<string>)
    requires pieces != [] && choice != []
    ensures Chosen(pieces, values, choice) <==>
      choice[0] in Choices(pieces[0], values) && Chosen(pieces[1..], values, choice[1..])
  {
    if choice[0] in Choices(pieces[0], values) && Chosen(pieces[1..], values, choice[1..]) {
      forall i | 0 <= i < |pieces| ensures choice[i] in Choices(pieces[i], values) {
        if i > 0 {
          assert choice[i] == choice[1..][i - 1] && pieces[i] == pieces[1..][i - 1];
        }
      }
    }
  }

  lemma {:induction false} FilledIsChosen(pieces: seq<Piece>, values: string -> Option<seq<string>>, x: string)
    returns (choice: seq<string>)
    requires x in Filled(pieces, values)
    ensures Chosen(pieces, values, choice) && x == Concat(choice)
  {
    if pieces == [] {
      choice := [];
    } else {
      InProduct(x, Choices(pieces[0], values), Filled(pieces[1..], values));
      var a, b :| a in Choices(pieces[0], values) && b in Filled(pieces[1..], values) && x == a + b;
      var rest := FilledIsChosen(pieces[1..], values, b);
      choice := [a] + rest;
      assert choice[1..] == rest;
      ChosenCons(pieces, values, choice);
    }
  }

  lemma {:induction false} ChosenIsFilled(pieces: seq<Piece>, values: string -> Option<seq<string>>, choice: seq<string>)
    requires Chosen(pieces, values, choice)
    ensures Concat(choice) in Filled(pieces, values)
  {
    if pieces != [] {
      ChosenCons(pieces, values, choice);
      ChosenIsFilled(pieces[1..], values, choice[1..]);
      InProduct(Concat(choice), Choices(pieces[0], values), Filled(pieces[1..], values));
    }
  }

  /** An expansion is one value for every variable, in its place: all of those,
      and nothing else. A variable with no value leaves none. */
  lemma ExpansionsAreChoices(pieces: seq<Piece>, values: string -> Option<seq<string>>, x: string)
    ensures x in Filled(pieces, values) <==> exists choice :: Chosen(pieces, values, choice) && x == Concat(choice)
  {
    if x in Filled(pieces, values) {
      var choice := FilledIsChosen(pieces, values, x);
    }
    if choice :| Chosen(pieces, values, choice) && x == Concat(choice) {
      ChosenIsFilled(pieces, values, choice);
    }
  }

  function PieceText(piece: Piece): string {
    match piece
    case Literal(text) => text
    case Variable(name) => "%" + (name + "%")
  }

  function Spelled(pieces: seq<Piece>): string {
    if pieces == [] then "" else PieceText(pieces[0]) + Spelled(pieces[1..])
  }

  lemma AroundIndex(s: string, i: nat)
    requires i < |s| && s[i] == '%'
    ensures s == s[..i] + ("%" + s[i + 1..])
  {
  }

  lemma CutSpells(template: string)
    requires CutAt(template).Cut?
    ensures var cut := CutAt(template); template == cut.literal + (PieceText(Variable(cut.name)) + cut.rest)
  {
    hide IsKnown; hide PieceText;
    var start := IndexOf(template, '%');
    var after := template[start + 1..];
    var end := IndexOf(after, '%');
    assert start < |template| && template[start] == '%' && end < |after| && after[end] == '%';
    assert CutAt(template) == Cut(template[..start], after[..end], after[end + 1..]);
    hide IndexOf; hide CutAt;
    SpelledAround(template, start, after, end);
  }

  lemma SpelledAround(template: string, start: nat, after: string, end: nat)
    requires start < |template| && template[start] == '%' && after == template[start + 1..]
    requires end < |after| && after[end] == '%'
    ensures template == template[..start] + (PieceText(Variable(after[..end])) + after[end + 1..])
  {
    hide PieceText;
    AroundIndex(template, start);
    AroundIndex(after, end);
    VariableAround(template[..start], after[..end], after[end + 1..]);
  }

  lemma VariableAround(literal: string, name: string, rest: string)
    ensures literal + ("%" + (name + ("%" + rest))) == literal + (PieceText(Variable(name)) + rest)
  {
    assert "%" + (name + ("%" + rest)) == PieceText(Variable(name)) + rest;
  }

  lemma SpelledTwo(a: Piece, b: Piece, more: seq<Piece>)
    ensures Spelled([a, b] + more) == PieceText(a) + (PieceText(b) + Spelled(more))
  {
    assert ([a, b] + more)[1..] == [b] + more && ([b] + more)[1..] == more;
  }

  /** Nothing of a template is lost or moved when it is taken apart. */
  lemma {:induction false} PiecesSpellTheTemplate(template: string)
    requires Pieces(template).Ok?
    ensures Spelled(Pieces(template).value) == template
    decreases |template|
  {
    match CutAt(template) {
      case NoVariable =>
        assert [Literal(template)][1..] == [] && template + "" == template;
      case Cut(literal, name, rest) =>
        PiecesSpellTheTemplate(rest);
        CutSpells(template);
        SpelledTwo(Literal(literal), Variable(name), Pieces(rest).value);
    }
  }

  // ----- the values used to validate a catalog -----

  /** `candidates_for`: values that reach every place worth refusing. */
  function Candidates(name: string): Option<seq<string>> {
    CandidatesFor(UpperAll(name))
  }

  function CandidatesFor(known: string): Option<seq<string>> {
    if known == "PROGRAMFILES" then Some(["C:\\Program Files"])
    else if known == "PROGRAMFILES(X86)" then Some(["C:\\Program Files (x86)"])
    else if known == "PROGRAMDATA" then Some(["C:\\ProgramData"])
    else if known == "LOCALAPPDATA" then Some(["C:\\Users\\ExampleUser\\AppData\\Local"])
    else if known == "APPDATA" then Some(["C:\\Users\\ExampleUser\\AppData\\Roaming"])
    else if known == "USERPROFILE" then Some(["C:\\Users\\ExampleUser"])
    else if known == "SYSTEMROOT" then Some(["C:\\Windows"])
    else if known == "PUBLIC" then Some(["C:\\Users\\Public"])
    else if known == "STEAM_LIBRARY" then Some(["C:\\Program Files (x86)\\Steam", "D:\\SteamLibrary"])
    else if known == "EPIC_LIBRARY" then Some(["C:\\Program Files\\Epic Games", "D:\\Epic Games"])
    else None
  }

  /** `expand_for_validation`. */
  function ValidationExpansions(template: string): Result<seq<string>, ExpandError> {
    Expansions(template, Candidates)
  }

  /** A list with no `%` in any of its texts. */
  predicate AllPlain(values: seq<string>) {
    forall value :: value in values ==> '%' !in value
  }

  lemma SystemPlain()
    ensures AllPlain(["C:\\Program Files"]) && AllPlain(["C:\\Program Files (x86)"])
    ensures AllPlain(["C:\\ProgramData"]) && AllPlain(["C:\\Windows"])
  {
  }

  lemma ProfilePlain()
    ensures AllPlain(["C:\\Users\\ExampleUser"]) && AllPlain(["C:\\Users\\Public"])
    ensures AllPlain(["C:\\Users\\ExampleUser\\AppData\\Local"]) && AllPlain(["C:\\Users\\ExampleUser\\AppData\\Roaming"])
  {
  }

  lemma LibraryPlain()
    ensures AllPlain(["C:\\Program Files (x86)\\Steam", "D:\\SteamLibrary"])
    ensures AllPlain(["C:\\Program Files\\Epic Games", "D:\\Epic Games"])
  {
  }

  lemma CandidatesForArePlain(known: string)
    requires CandidatesFor(known).Some?
    ensures AllPlain(CandidatesFor(known).value)
  {
    hide AllPlain;
    SystemPlain();
    ProfilePlain();
    LibraryPlain();
  }

  lemma CandidatesArePlain(name: string, value: string)
    requires value in Choices(Variable(name), Candidates)
    ensures '%' !in value
  {
    hide UpperAll; hide CandidatesFor;
    CandidatesForArePlain(UpperAll(name));
  }

  ghost predicate PlainLiterals(pieces: seq<Piece>) {
    forall i :: 0 <= i < |pieces| && pieces[i].Literal? ==> '%' !in pieces[i].text
  }

  lemma {:induction false} LiteralsArePlain(template: string)
    requires Pieces(template).Ok?
    ensures PlainLiterals(Pieces(template).value)
    decreases |template|
  {
    hide IsKnown;
    match CutAt(template) {
      case NoVariable =>
      case Cut(_, _, rest) => LiteralsArePlain(rest);
    }
  }

  lemma {:induction false} FilledIsPlain(pieces: seq<Piece>, x: string)
    requires PlainLiterals(pieces) && x in Filled(pieces, Candidates)
    ensures '%' !in x
  {
    hide Candidates;
    if pieces != [] {
      InProduct(x, Choices(pieces[0], Candidates), Filled(pieces[1..], Candidates));
      var a, b :| a in Choices(pieces[0], Candidates) && b in Filled(pieces[1..], Candidates) && x == a + b;
      FilledIsPlain(pieces[1..], b);
      if pieces[0].Variable? {
        CandidatesArePlain(pieces[0].name, a);
      }
    }
  }

  /** No `%` is left in an expansion: the last of an odd number is an error. */
  lemma ExpansionsArePlain(template: string, x: string)
    requires ValidationExpansions(template).Ok? && x in ValidationExpansions(template).value
    ensures '%' !in x
  {
    LiteralsArePlain(template);
    FilledIsPlain(Pieces(template).value, x);
  }
}
