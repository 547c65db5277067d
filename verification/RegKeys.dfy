// Canonical registry keys of core/src/safety/paths.rs: a hive, and the subkeys
// below it in upper case.
module RegKeys {
  import opened Prelude
  import opened Text
  import opened Paths
  import opened PathLaws

  datatype Hive = Hklm | Hkcu | Hku | Hkcr | Hkcc

  datatype RegKeyError = UnknownHive | EmptyKey

  datatype CanonicalRegKey = CanonicalRegKey(hive: Hive, components: seq<string>, text: string)

  function Short(hive: Hive): string {
    match hive
    case Hklm => "HKLM"
    case Hkcu => "HKCU"
    case Hku => "HKU"
    case Hkcr => "HKCR"
    case Hkcc => "HKCC"
  }

  /** The hive an upper-case head names, by either spelling. */
  function HiveNamed(head: string): Option<Hive> {
    if head == "HKLM" || head == "HKEY_LOCAL_MACHINE" then Some(Hklm)
    else if head == "HKCU" || head == "HKEY_CURRENT_USER" then Some(Hkcu)
    else if head == "HKU" || head == "HKEY_USERS" then Some(Hku)
    else if head == "HKCR" || head == "HKEY_CLASSES_ROOT" then Some(Hkcr)
    else if head == "HKCC" || head == "HKEY_CURRENT_CONFIG" then Some(Hkcc)
    else None
  }

  /** Subkeys: segments with white space trimmed, empty ones left out. */
  function Subkeys(segments: seq<string>): seq<string> {
    if segments == [] then []
    else
      var name := UpperAll(Trim(segments[0]));
      (if name == "" then [] else [name]) + Subkeys(segments[1..])
  }

  function KeyText(hive: Hive, components: seq<string>): string {
    Short(hive) + Rendered(components)
  }

  /** `canonicalise_reg_key`. */
  function CanonicalKey(input: string): Result<CanonicalRegKey, RegKeyError> {
    var trimmed := WithoutTrailing(WithoutLeading(Trim(Unified(input)), '\\'), '\\');
    if trimmed == "" then Err(EmptyKey)
    else
      var parts := Split(trimmed, '\\');
      match HiveNamed(UpperAll(parts[0]))
      case None => Err(UnknownHive)
      case Some(hive) =>
        var components := Subkeys(parts[1..]);
        Ok(CanonicalRegKey(hive, components, KeyText(hive, components)))
  }

  /** A subkey that reading again would not touch. */
  ghost predicate CleanKey(c: string) {
    c != "" && UpperAll(c) == c && Trim(c) == c && '\\' !in c && '/' !in c
  }

  lemma {:induction false} TrimAgain(s: string)
    ensures Trim(Trim(s)) == Trim(s)
    ensures Trim(s) != "" ==> !IsWhitespace(Trim(s)[0]) && !IsWhitespace(Trim(s)[|Trim(s)| - 1])
  {
    StartTrimmed(s);
    var t := TrimStart(s);
    assert TrimEnd(t) <= t;
  }

  lemma {:induction false} StartTrimmed(s: string)
    ensures TrimStart(s) != "" ==> !IsWhitespace(TrimStart(s)[0])
  {
    if s != "" && IsWhitespace(s[0]) {
      StartTrimmed(s[1..]);
    }
  }

  lemma TrimOfUpper(s: string)
    requires Trim(s) == s
    ensures Trim(UpperAll(s)) == UpperAll(s)
  {
    TrimAgain(s);
    UpperAllAt(s);
  }

  lemma {:induction false} SubkeysAreClean(segments: seq<string>)
    requires forall s :: s in segments ==> '\\' !in s && '/' !in s
    ensures forall c :: c in Subkeys(segments) ==> CleanKey(c)
  {
    if segments != [] {
      SubkeysAreClean(segments[1..]);
      var name := Trim(segments[0]);
      TrimCharacters(segments[0], '\\');
      TrimCharacters(segments[0], '/');
      UpperCharacters(name, '\\');
      UpperCharacters(name, '/');
      TrimAgain(segments[0]);
      TrimOfUpper(name);
      CaseOfCase(name);
    }
  }

  lemma {:induction false} CleanSubkeys(components: seq<string>)
    requires forall c :: c in components ==> CleanKey(c)
    ensures Subkeys(components) == components
  {
    if components != [] {
      CleanSubkeys(components[1..]);
      assert CleanKey(components[0]);
      assert [components[0]] + components[1..] == components;
    }
  }

  lemma {:induction false} WithoutCharacters(s: string, c: char, x: char)
    requires x !in s
    ensures x !in WithoutLeading(s, c) && x !in WithoutTrailing(s, c)
    decreases |s|
  {
    if s != "" && s[0] == c {
      WithoutCharacters(s[1..], c, x);
    }
    if s != "" && s[|s| - 1] == c {
      WithoutCharacters(s[..|s| - 1], c, x);
    }
  }

  lemma KeyParts(input: string)
    requires CanonicalKey(input).Ok?
    ensures forall c :: c in CanonicalKey(input).value.components ==> CleanKey(c)
  {
    var u := Unified(input);
    UnifiedIsPlain(input);
    TrimCharacters(u, '/');
    WithoutCharacters(Trim(u), '\\', '/');
    WithoutCharacters(WithoutLeading(Trim(u), '\\'), '\\', '/');
    var trimmed := WithoutTrailing(WithoutLeading(Trim(u), '\\'), '\\');
    SplitPieces(trimmed, '\\');
    SplitCharacters(trimmed, '\\');
    var parts := Split(trimmed, '\\');
    assert forall s :: s in parts[1..] ==> s in parts;
    SubkeysAreClean(parts[1..]);
  }

  lemma SplitKeyText(hive: Hive, components: seq<string>)
    requires forall c :: c in components ==> '\\' !in c
    ensures Split(KeyText(hive, components), '\\') == [Short(hive)] + components
  {
    SplitPiece(Short(hive), '\\');
    if components == [] {
      assert KeyText(hive, components) == Short(hive);
    } else {
      SplitRendered(components);
      var rest := Rendered(components)[1..];
      assert KeyText(hive, components) == Short(hive) + ['\\'] + rest;
      SplitAt(Short(hive), rest, '\\');
    }
  }

  lemma {:induction false} RenderedEnd(components: seq<string>)
    requires components != [] && forall c :: c in components ==> CleanKey(c)
    ensures Rendered(components) != ""
    ensures var last := Rendered(components)[|Rendered(components)| - 1]; !IsWhitespace(last) && last != '\\'
  {
    var c := components[0];
    assert CleanKey(c);
    if |components| == 1 {
      TrimAgain(c);
      assert components[1..] == [];
      assert Rendered(components) == "\\" + c;
      assert c[|c| - 1] in c;
    } else {
      RenderedEnd(components[1..]);
    }
  }

  lemma TrimmedText(text: string)
    requires text != "" && '/' !in text
    requires !IsWhitespace(text[0]) && text[0] != '\\'
    requires !IsWhitespace(text[|text| - 1]) && text[|text| - 1] != '\\'
    ensures WithoutTrailing(WithoutLeading(Trim(Unified(text)), '\\'), '\\') == text
  {
    UnifiedIsPlain(text);
  }

  lemma KeyTextEnds(hive: Hive, components: seq<string>)
    requires forall c :: c in components ==> CleanKey(c)
    ensures var text := KeyText(hive, components);
            && text != "" && '/' !in text && text[0] == 'H'
            && !IsWhitespace(text[|text| - 1]) && text[|text| - 1] != '\\'
  {
    RenderedCharacters(components, '/');
    if components != [] {
      RenderedEnd(components);
    }
  }

  lemma ShortNamesHive(hive: Hive)
    ensures HiveNamed(UpperAll(Short(hive))) == Some(hive)
  {
    UpperAllAt(Short(hive));
    assert UpperAll(Short(hive)) == Short(hive);
  }

  /** Reading a canonical key again changes nothing, for every input. */
  lemma CanonicalKeyIsFixed(input: string)
    requires CanonicalKey(input).Ok?
    ensures CanonicalKey(CanonicalKey(input).value.text) == CanonicalKey(input)
  {
    var key := CanonicalKey(input).value;
    KeyParts(input);
    ReadAgain(key.hive, key.components);
  }

  lemma ReadAgain(hive: Hive, components: seq<string>)
    requires forall c :: c in components ==> CleanKey(c)
    ensures CanonicalKey(KeyText(hive, components)) == Ok(CanonicalRegKey(hive, components, KeyText(hive, components)))
  {
    var text := KeyText(hive, components);
    assert WithoutTrailing(WithoutLeading(Trim(Unified(text)), '\\'), '\\') == text != "" by {
      KeyTextEnds(hive, components);
      TrimmedText(text);
    }
    assert Split(text, '\\') == [Short(hive)] + components by {
      assert forall c :: c in components ==> CleanKey(c);
      SplitKeyText(hive, components);
    }
    ShortNamesHive(hive);
    CleanSubkeys(components);
    assert ([Short(hive)] + components)[1..] == components;
  }

  // ----- a key below another, from its text -----

  lemma {:induction false} SubkeysConcat(a: seq<string>, b: seq<string>)
    ensures Subkeys(a + b) == Subkeys(a) + Subkeys(b)
  {
    hide UpperAll; hide Trim;
    if a == [] {
      assert a + b == b;
    } else {
      assert (a + b)[1..] == a[1..] + b;
      SubkeysConcat(a[1..], b);
    }
  }

  lemma SplitStep(s: string)
    requires s != ""
    ensures var rest := Split(s[1..], '\\');
            Split(s, '\\') == if s[0] == '\\' then [""] + rest else [[s[0]] + rest[0]] + rest[1..]
  {
  }

  /** The same pieces, the last with one character more. */
  ghost predicate Grown(p: seq<string>, q: seq<string>, c: char) {
    && |q| == |p| > 0 && q[|p| - 1] == p[|p| - 1] + [c]
    && forall i :: 0 <= i < |p| - 1 ==> q[i] == p[i]
  }

  lemma GrownAfter(p: seq<string>, q: seq<string>, c: char, first: char)
    requires Grown(p, q, c)
    ensures Grown([""] + p, [""] + q, c)
    ensures Grown([[first] + p[0]] + p[1..], [[first] + q[0]] + q[1..], c)
  {
    assert |p| == 1 ==> [first] + (p[0] + [c]) == ([first] + p[0]) + [c];
  }

  lemma {:induction false} SplitLast(s: string, c: char)
    requires c != '\\'
    ensures Grown(Split(s, '\\'), Split(s + [c], '\\'), c)
  {
    if s == "" {
      assert s + [c] == [c] && [c][1..] == "";
    } else {
      assert (s + [c])[1..] == s[1..] + [c];
      SplitLast(s[1..], c);
      SplitStep(s);
      SplitStep(s + [c]);
      hide Split; hide Grown;
      GrownAfter(Split(s[1..], '\\'), Split(s[1..] + [c], '\\'), c, s[0]);
    }
  }

  lemma {:induction false} TrimStartMore(s: string, c: char)
    requires IsWhitespace(c)
    ensures TrimStart(s + [c]) == if TrimStart(s) == "" then "" else TrimStart(s) + [c]
  {
    if s == "" {
      assert s + [c] == [c] && [c][1..] == "";
    } else {
      assert (s + [c])[1..] == s[1..] + [c];
      if IsWhitespace(s[0]) {
        TrimStartMore(s[1..], c);
      }
    }
  }

  lemma TrimMore(s: string, c: char)
    requires IsWhitespace(c)
    ensures Trim(s + [c]) == Trim(s)
  {
    TrimStartMore(s, c);
    var t := TrimStart(s);
    assert (t + [c])[..|t|] == t;
  }

  /** White space or a separator at the end of a key names nothing more. */
  lemma EndNamesNothing(s: string, c: char)
    requires IsWhitespace(c) || c == '\\'
    ensures Subkeys(Split(s + [c], '\\')) == Subkeys(Split(s, '\\'))
  {
    hide Trim; hide UpperAll;
    EmptyNamesNothing();
    hide Subkeys; hide Split;
    var p := Split(s, '\\');
    if c == '\\' {
      SplitAt(s, "", '\\');
      assert s + ['\\'] + "" == s + [c];
      SubkeysConcat(p, [""]);
    } else {
      var q, n := Split(s + [c], '\\'), |p| - 1;
      SplitLast(s, c);
      assert q[..n] == p[..n] && q[n] == p[n] + [c];
      TrimMore(p[n], c);
      assert p == p[..n] + [p[n]] && q == q[..n] + [q[n]];
      SubkeysConcat(p[..n], [p[n]]);
      SubkeysConcat(q[..n], [q[n]]);
      OneSubkey(p[n], q[n]);
    }
  }

  lemma EmptyNamesNothing()
    ensures Split("", '\\') == [""] && Subkeys([""]) == []
  {
    assert [""][1..] == [] && UpperAll(Trim("")) == "";
  }

  lemma OneSubkey(a: string, b: string)
    requires Trim(a) == Trim(b)
    ensures Subkeys([a]) == Subkeys([b])
  {
    assert [a][1..] == [] && [b][1..] == [];
  }

  lemma {:induction false} TrimmedNamesTheSame(s: string)
    ensures Subkeys(Split(TrimEnd(s), '\\')) == Subkeys(Split(s, '\\'))
    ensures Subkeys(Split(WithoutTrailing(s, '\\'), '\\')) == Subkeys(Split(s, '\\'))
    decreases |s|
  {
    hide Subkeys; hide Split;
    if s != "" && (IsWhitespace(s[|s| - 1]) || s[|s| - 1] == '\\') {
      var n := |s| - 1;
      assert s == s[..n] + [s[n]];
      TrimmedNamesTheSame(s[..n]);
      EndNamesNothing(s[..n], s[n]);
    }
  }

  lemma {:induction false} WithoutTrailingAfter(a: string, b: string, c: char)
    requires a != "" && a[|a| - 1] != c
    ensures WithoutTrailing(a + b, c) == a + WithoutTrailing(b, c)
    decreases |b|
  {
    if b == "" {
      assert a + b == a;
    } else if b[|b| - 1] == c {
      assert (a + b)[..|a + b| - 1] == a + b[..|b| - 1];
      WithoutTrailingAfter(a, b[..|b| - 1], c);
    }
  }

  /** A hive, or a key written without anything to trim. */
  predicate PlainKey(pre: string) {
    && pre != "" && '/' !in pre && !IsWhitespace(pre[0]) && pre[0] != '\\'
    && !IsWhitespace(pre[|pre| - 1]) && pre[|pre| - 1] != '\\'
  }

  lemma StrippedBelow(pre: string, tail: string) returns (w: string)
    requires PlainKey(pre)
    ensures WithoutTrailing(WithoutLeading(Trim(Unified(pre + "\\" + tail)), '\\'), '\\') == pre + w
    ensures w <= "\\" + Unified(tail)
    ensures Subkeys(Split(pre + w, '\\')) == Subkeys(Split(pre + ("\\" + Unified(tail)), '\\'))
  {
    var below := "\\" + Unified(tail);
    UnifiedConcat(pre + "\\", tail);
    UnifiedConcat(pre, "\\");
    UnifiedIsPlain(pre);
    assert Unified("\\") == "\\";
    var whole := pre + below;
    assert Unified(pre + "\\" + tail) == whole;
    assert whole[0] == pre[0];
    assert TrimStart(whole) == whole;
    TrimEndAfter(pre, below);
    var t := TrimEnd(below);
    assert (pre + t)[0] == pre[0];
    assert WithoutLeading(pre + t, '\\') == pre + t;
    WithoutTrailingAfter(pre, t, '\\');
    w := WithoutTrailing(t, '\\');
    hide Subkeys; hide Split; hide Unified;
    TrimmedNamesTheSame(whole);
    TrimmedNamesTheSame(pre + t);
  }

  /** What a key names below another: the subkeys of what follows it, with either
      separator, doubled ones, and white space around the names. */
  lemma KeyBelow(pre: string, tail: string, hive: Hive)
    requires PlainKey(pre) && HiveNamed(UpperAll(Split(pre, '\\')[0])) == Some(hive)
    ensures var r := CanonicalKey(pre + "\\" + tail);
            && r.Ok? && r.value.hive == hive
            && r.value.components == Subkeys(Split(pre, '\\')[1..]) + Subkeys(Split(Unified(tail), '\\'))
  {
    hide Subkeys; hide Split; hide Unified; hide Trim; hide WithoutLeading; hide WithoutTrailing; hide UpperAll; hide HiveNamed;
    var w := StrippedBelow(pre, tail);
    PartsBelow(pre, w, Unified(tail));
  }

  lemma PartsBelow(pre: string, w: string, u: string)
    requires w <= "\\" + u && Subkeys(Split(pre + w, '\\')) == Subkeys(Split(pre + ("\\" + u), '\\'))
    ensures Split(pre + w, '\\')[0] == Split(pre, '\\')[0]
    ensures Subkeys(Split(pre + w, '\\')[1..]) == Subkeys(Split(pre, '\\')[1..]) + Subkeys(Split(u, '\\'))
    ensures pre != "" ==> pre + w != ""
  {
    hide Subkeys; hide Split;
    var p, all := Split(pre, '\\'), Split(u, '\\');
    SplitAt(pre, u, '\\');
    assert pre + ("\\" + u) == pre + ['\\'] + u;
    SubkeysConcat(p, all);
    var rest: seq<string> := if w == "" then [] else Split(w[1..], '\\');
    assert Split(pre + w, '\\') == p + rest by {
      if w == "" {
        assert pre + w == pre && p + rest == p;
      } else {
        assert w[0] == '\\' && pre + w == pre + ['\\'] + w[1..];
        SplitAt(pre, w[1..], '\\');
      }
    }
    SubkeysConcat(p, rest);
    SamePrefix(Subkeys(p), Subkeys(rest), Subkeys(all));
    assert (p + rest)[1..] == p[1..] + rest;
    SubkeysConcat(p[1..], rest);
  }

  lemma SamePrefix(a: seq<string>, b: seq<string>, c: seq<string>)
    requires a + b == a + c
    ensures b == c
  {
    assert b == (a + b)[|a|..] && c == (a + c)[|a|..];
  }
}
