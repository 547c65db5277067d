// A driver's or service's configured image, from the text it is registered
// with to the file it means, and what an audit makes of two spellings of one:
// core/src/scan/engine.rs.
module Images {
  import opened Prelude
  import opened Text
  import opened Paths
  import opened PathLaws
  import opened PathSpellings
  import opened Catalog
  import opened Machine
  import opened Audit

  const EXTENSIONS: seq<string> := [".exe", ".sys", ".dll"]

  /** One of the extensions, in any case, at a place. */
  ghost predicate ExtensionAt(s: string, i: nat) {
    exists e :: 0 <= e < |EXTENSIONS| && OccursAt(LowerAll(s), EXTENSIONS[e], i)
  }

  /** A text with one extension, at its end, that begins neither with white
      space nor with a quote. */
  ghost predicate IsImage(s: string) {
    && |s| >= 4 && ExtensionAt(s, |s| - 4)
    && (forall i :: 0 <= i < |s| - 4 ==> !ExtensionAt(s, i))
    && s[0] != '"' && !IsWhitespace(s[0])
  }

  predicate Blank(s: string) {
    forall c :: c in s ==> IsWhitespace(c)
  }

  // ----- the text of an image -----

  lemma ExtensionText(s: string, e: nat, i: nat)
    requires e < |EXTENSIONS| && OccursAt(LowerAll(s), EXTENSIONS[e], i)
    ensures |EXTENSIONS[e]| == 4 && i + 4 <= |s| && s[i] == '.'
    ensures !IsWhitespace(s[i + 3])
  {
    hide LowerAll; hide IsWhitespace; hide OccursAt; hide EXTENSIONS;
    ExtensionsSpelled(e);
    LowerAllAt(s);
    OccurringText(LowerAll(s), EXTENSIONS[e], i, 0);
    OccurringText(LowerAll(s), EXTENSIONS[e], i, 3);
    LetterIsNoSpace(s[i + 3]);
  }

  lemma OccurringText(s: string, part: string, i: nat, k: nat)
    requires OccursAt(s, part, i) && k < |part|
    ensures i + |part| <= |s| && s[i + k] == part[k]
  {
    assert s[i..][k] == s[i + k];
  }

  lemma ExtensionsSpelled(e: nat)
    requires e < |EXTENSIONS|
    ensures var x := EXTENSIONS[e]; |x| == 4 && x[0] == '.' && 'a' <= x[3] <= 'z'
  {
  }

  lemma LetterIsNoSpace(c: char)
    requires 'a' <= Lower(c) <= 'z'
    ensures !IsWhitespace(c)
  {
  }

  lemma OccursInPrefix(s: string, args: string, part: string, i: nat)
    requires i + |part| <= |s|
    ensures OccursAt(LowerAll(s + args), part, i) <==> OccursAt(LowerAll(s), part, i)
  {
    LowerConcat(s, args);
    var l, m := LowerAll(s), LowerAll(args);
    hide LowerAll;
    assert (l + m)[i..] == l[i..] + m;
    if part <= (l + m)[i..] {
      assert l[i..][..|part|] == (l + m)[i..][..|part|] == part;
    }
  }

  /** The first end of an extension, whatever follows an image. */
  lemma EndIsAt(s: string, args: string, e: nat)
    requires IsImage(s) && e < |EXTENSIONS|
    ensures var end := EndOf(LowerAll(s + args), EXTENSIONS[e]);
            && (end >= 0 ==> end >= |s|)
            && (OccursAt(LowerAll(s), EXTENSIONS[e], |s| - 4) ==> end == |s|)
  {
    hide LowerAll; hide Find; hide OccursAt; hide EXTENSIONS; hide IsImage;
    ExtensionsSpelled(e);
    ImageIsLong(s);
    var l, x := LowerAll(s + args), EXTENSIONS[e];
    var at := Find(l, x);
    if 0 <= at < |s| - 4 {
      OccursInPrefix(s, args, x, at);
      NoneBefore(s, e, at);
    }
    OccursInPrefix(s, args, x, |s| - 4);
  }

  lemma ImageIsLong(s: string)
    requires IsImage(s)
    ensures |s| >= 4
  {
  }

  lemma NoneBefore(s: string, e: nat, i: nat)
    requires IsImage(s) && e < |EXTENSIONS| && i < |s| - 4
    ensures !OccursAt(LowerAll(s), EXTENSIONS[e], i)
  {
    hide LowerAll; hide OccursAt; hide EXTENSIONS;
    assert !ExtensionAt(s, i);
  }

  lemma EarliestIs(ends: seq<int>, limit: nat, n: nat)
    requires n <= limit && (n in ends || n == limit) && forall i :: 0 <= i < |ends| && ends[i] >= 0 ==> ends[i] >= n
    ensures Earliest(ends, limit) == n
  {
    if ends != [] {
      assert ends == [ends[0]] + ends[1..];
      EarliestIs(ends[1..], if 0 <= ends[0] < limit then ends[0] else limit, n);
    }
  }

  lemma {:induction false} TrimStartBlank(lead: string, s: string)
    requires Blank(lead)
    ensures TrimStart(lead + s) == TrimStart(s)
  {
    if lead == "" {
      assert lead + s == s;
    } else {
      assert lead[0] in lead && (lead + s)[1..] == lead[1..] + s;
      TrimStartBlank(lead[1..], s);
    }
  }

  lemma LastIsKept(s: string)
    requires IsImage(s)
    ensures !IsWhitespace(s[|s| - 1])
  {
    var e :| 0 <= e < |EXTENSIONS| && OccursAt(LowerAll(s), EXTENSIONS[e], |s| - 4);
    ExtensionText(s, e, |s| - 4);
  }

  lemma TrimmedAround(lead: string, s: string, args: string)
    requires Blank(lead) && s != "" && !IsWhitespace(s[0]) && !IsWhitespace(s[|s| - 1])
    ensures Trim(lead + s + args) == s + TrimEnd(args)
  {
    hide TrimEnd; hide IsWhitespace;
    assert lead + s + args == lead + (s + args);
    TrimStartBlank(lead, s + args);
    assert TrimStart(s + args) == s + args;
    TrimEndAfter(s, args);
  }

  /** What stands around an image and what follows its extension is left out. */
  lemma ArgumentsAreLeftOut(lead: string, s: string, args: string)
    requires IsImage(s) && Blank(lead)
    ensures ImageText(lead + s + args) == s
  {
    LastIsKept(s);
    TrimmedAround(lead, s, args);
    NothingToTrim(s);
    EarliestEnd(s, TrimEnd(args));
    hide IsImage; hide Earliest; hide EndOf; hide Trim; hide LowerAll; hide TrimEnd;
    var text := s + TrimEnd(args);
    assert text[0] == s[0];
    assert text[..|s|] == s;
  }

  lemma EarliestEnd(s: string, args: string)
    requires IsImage(s)
    ensures s[0] != '"'
    ensures var l := LowerAll(s + args);
            Earliest([EndOf(l, ".exe"), EndOf(l, ".sys"), EndOf(l, ".dll")], |s + args|) == |s|
  {
    hide EndOf; hide Earliest; hide LowerAll; hide OccursAt;
    var l := LowerAll(s + args);
    var ends := [EndOf(l, ".exe"), EndOf(l, ".sys"), EndOf(l, ".dll")];
    EndIsAt(s, args, 0);
    EndIsAt(s, args, 1);
    EndIsAt(s, args, 2);
    assert ends[0] == EndOf(l, EXTENSIONS[0]) && ends[1] == EndOf(l, EXTENSIONS[1]) && ends[2] == EndOf(l, EXTENSIONS[2]);
    var e :| 0 <= e < |EXTENSIONS| && OccursAt(LowerAll(s), EXTENSIONS[e], |s| - 4);
    assert ends[e] == |s|;
    assert ends[e] in ends;
    EarliestIs(ends, |s + args|, |s|);
  }

  /** A quoted image is what stands between the quotes. */
  lemma QuotesAreLeftOut(lead: string, q: string, args: string)
    requires Blank(lead) && '"' !in q
    ensures ImageText(lead + ("\"" + (q + "\"")) + args) == Trim(q)
  {
    var quoted := "\"" + (q + "\"");
    TrimmedAround(lead, quoted, args);
    var text := quoted + TrimEnd(args);
    hide Trim; hide TrimEnd; hide LowerAll; hide Earliest; hide EndOf;
    FirstQuote(q, TrimEnd(args));
    assert text[1..] == q + ("\"" + TrimEnd(args));
    assert text[0] == '"';
  }

  lemma FirstQuote(q: string, tail: string)
    requires '"' !in q
    ensures var t := q + ("\"" + tail); IndexOf(t, '"') == |q| && t[..|q|] == q
  {
    var t := q + ("\"" + tail);
    assert t[|q|] == '"';
    assert forall j :: 0 <= j < |q| ==> t[j] == q[j] && q[j] in q;
  }

  /** Without an extension the whole text is the image, and an open quote runs to
      the end. */
  lemma BareTextIsRead(configured: string)
    requires forall i :: 0 <= i ==> !ExtensionAt(Trim(configured), i)
    requires Trim(configured) != "" ==> Trim(configured)[0] != '"'
    ensures ImageText(configured) == Trim(Trim(configured))
  {
    var text := Trim(configured);
    NoEnd(text, 0);
    NoEnd(text, 1);
    NoEnd(text, 2);
    hide Trim; hide EndOf; hide LowerAll; hide ExtensionAt; hide Earliest;
    var l := LowerAll(text);
    var ends := [EndOf(l, ".exe"), EndOf(l, ".sys"), EndOf(l, ".dll")];
    assert EXTENSIONS[0] == ".exe" && EXTENSIONS[1] == ".sys" && EXTENSIONS[2] == ".dll";
    EarliestIs(ends, |text|, |text|);
    assert text[..|text|] == text;
  }

  lemma NoEnd(text: string, e: nat)
    requires e < |EXTENSIONS| && forall i :: 0 <= i ==> !ExtensionAt(text, i)
    ensures EndOf(LowerAll(text), EXTENSIONS[e]) == -1
  {
    hide LowerAll; hide OccursAt; hide EXTENSIONS; hide Find;
    var at := Find(LowerAll(text), EXTENSIONS[e]);
    if at >= 0 {
      NotThere(text, e, at);
    }
  }

  lemma NotThere(text: string, e: nat, i: nat)
    requires e < |EXTENSIONS| && !ExtensionAt(text, i)
    ensures !OccursAt(LowerAll(text), EXTENSIONS[e], i)
  {
  }

  lemma OpenQuote(q: string)
    requires '"' !in q && q != "" && !IsWhitespace(q[|q| - 1])
    ensures ImageText("\"" + q) == Trim(q)
  {
    var text := "\"" + q;
    hide Earliest; hide EndOf; hide LowerAll; hide IsWhitespace;
    assert !IsWhitespace('"') by { QuoteIsNoSpace(); }
    NothingToTrim(text);
    hide Trim;
    assert text[1..] == q;
    IndexOfFinds(q, '"');
    assert q[..|q|] == q;
  }

  lemma QuoteIsNoSpace()
    ensures !IsWhitespace('"')
  {
  }

  // ----- the file it means -----

  lemma StartsItself(k: string, prefix: string, r: string)
    requires EqFold(k, prefix)
    ensures StartsFold(k + r, prefix) && (k + r)[|prefix|..] == r
  {
    FoldIndex(k, prefix, 0);
    hide EqFold;
    assert (k + r)[..|prefix|] == k;
  }

  /** Written in one of the forms the kernel knows. */
  predicate IsSpecial(s: string) {
    StartsFold(s, "\\systemroot\\") || StartsFold(s, "%systemroot%\\") || "\\??\\" <= s || StartsFold(s, "system32\\")
  }

  /** The ways one image is written: as it is, in the NT namespace, and below
      the system's root by either of its names or by none. */
  ghost predicate Means(s: string, image: string, root: string) {
    || (s == image && !IsSpecial(s))
    || s == "\\??\\" + image
    || (exists k, r :: s == k + r && EqFold(k, "\\systemroot\\") && image == root + "\\" + r)
    || (exists k, r :: s == k + r && EqFold(k, "%systemroot%\\") && image == root + "\\" + r)
    || (exists k, r :: s == k + r && EqFold(k, "system32\\") && image == root + "\\" + s)
  }

  lemma BelowRoot(s: string, k: string, r: string, prefix: string)
    requires s == k + r && EqFold(k, prefix)
    ensures StartsFold(s, prefix) && s[|prefix|..] == r
  {
    StartsItself(k, prefix, r);
  }

  lemma BeginsWith(s: string, prefix: string, i: nat)
    requires StartsFold(s, prefix) && i < |prefix|
    ensures i < |s| && Lower(s[i]) == Lower(prefix[i])
  {
    FoldIndex(s[..|prefix|], prefix, i);
  }

  lemma OtherBeginnings(s: string)
    requires s != ""
    ensures StartsFold(s, KERNEL_ROOT) ==> s[0] == '\\' && |s| > 1 && Lower(s[1]) == 's'
    ensures StartsFold(s, VARIABLE_ROOT) ==> s[0] == '%'
    ensures StartsFold(s, "system32\\") ==> Lower(s[0]) == 's'
    ensures NT_PREFIX <= s ==> s[0] == '\\' && s[1] == '?'
  {
    hide StartsFold;
    assert KERNEL_ROOT[0] == '\\' && KERNEL_ROOT[1] == 's' && VARIABLE_ROOT[0] == '%' && "system32\\"[0] == 's';
    if StartsFold(s, KERNEL_ROOT) {
      BeginsWith(s, KERNEL_ROOT, 0);
      BeginsWith(s, KERNEL_ROOT, 1);
    }
    if StartsFold(s, VARIABLE_ROOT) {
      BeginsWith(s, VARIABLE_ROOT, 0);
    }
    if StartsFold(s, "system32\\") {
      BeginsWith(s, "system32\\", 0);
    }
  }

  lemma MeansFile(configured: string, s: string, image: string, root: string)
    requires ImageText(configured) == s && s != "" && Means(s, image, root)
    ensures ImageFile(configured, root) == Some(image)
  {
    hide ImageText; hide StartsFold; hide EqFold;
    OtherBeginnings(s);
    if k, r :| s == k + r && EqFold(k, "\\systemroot\\") && image == root + "\\" + r {
      BelowRoot(s, k, r, "\\systemroot\\");
    } else if k, r :| s == k + r && EqFold(k, "%systemroot%\\") && image == root + "\\" + r {
      BelowRoot(s, k, r, "%systemroot%\\");
    } else if k, r :| s == k + r && EqFold(k, "system32\\") && image == root + "\\" + s {
      BelowRoot(s, k, r, "system32\\");
    } else if s == "\\??\\" + image {
      assert s[4..] == image && s[..4] == NT_PREFIX;
    }
  }

  /** A text a service or driver may be registered with for an image: bare or in
      quotes, with anything after it. */
  ghost predicate Configures(configured: string, s: string) {
    exists lead, args :: Blank(lead)
      && (configured == lead + s + args || ('"' !in s && configured == lead + ("\"" + (s + "\"")) + args))
  }

  /** The texts that mean an image. */
  ghost predicate Spells(configured: string, image: string, root: string) {
    exists s :: IsImage(s) && Configures(configured, s) && Means(s, image, root)
  }

  lemma ConfiguredText(configured: string, s: string)
    requires IsImage(s) && Configures(configured, s)
    ensures ImageText(configured) == s
  {
    hide ImageText;
    var lead, args :| Blank(lead)
      && (configured == lead + s + args || ('"' !in s && configured == lead + ("\"" + (s + "\"")) + args));
    if configured == lead + s + args {
      ArgumentsAreLeftOut(lead, s, args);
    } else {
      QuotesAreLeftOut(lead, s, args);
      LastIsKept(s);
      NothingToTrim(s);
    }
  }

  /** Every text that means an image is read as that image. */
  lemma SpelledImageIsRead(configured: string, image: string, root: string)
    requires Spells(configured, image, root)
    ensures ImageFile(configured, root) == Some(image)
  {
    hide IsImage; hide Means; hide Configures; hide ImageFile;
    var s :| IsImage(s) && Configures(configured, s) && Means(s, image, root);
    ConfiguredText(configured, s);
    assert s != "" by { ImageIsLong(s); }
    MeansFile(configured, s, image, root);
  }

  /** An image below a folder is an image: the forms above take any. */
  lemma ImageBelow(k: string, r: string)
    requires IsImage(r) && k != "" && '.' !in k && k[0] != '"' && !IsWhitespace(k[0])
    ensures IsImage(k + r)
  {
    hide IsWhitespace;
    var s := k + r;
    var e :| 0 <= e < |EXTENSIONS| && OccursAt(LowerAll(r), EXTENSIONS[e], |r| - 4);
    OccursBelow(k, r, EXTENSIONS[e], |r| - 4);
    forall i | 0 <= i < |s| - 4 ensures !ExtensionAt(s, i) {
      if f :| 0 <= f < |EXTENSIONS| && OccursAt(LowerAll(s), EXTENSIONS[f], i) {
        ExtensionText(s, f, i);
        assert s[i] == '.';
        OccursBelow(k, r, EXTENSIONS[f], i - |k|);
        NoneBefore(r, f, i - |k|);
        assert false;
      }
    }
  }

  lemma OccursBelow(k: string, r: string, part: string, i: nat)
    requires i <= |r|
    ensures OccursAt(LowerAll(k + r), part, |k| + i) <==> OccursAt(LowerAll(r), part, i)
  {
    LowerConcat(k, r);
    hide LowerAll;
    var l, m := LowerAll(k), LowerAll(r);
    assert (l + m)[|k| + i..] == m[i..];
  }

  // ----- what an audit makes of it -----

  lemma NameAfterSeparator(folder: string, name: string)
    requires name != "" && '\\' !in name
    ensures FileName(folder + "\\" + name) == Some(name)
  {
    var path := folder + "\\" + name;
    assert path[|folder|] == '\\';
    forall j | |folder| < j < |path| ensures path[j] != '\\' {
      assert path[j] == name[j - |folder| - 1] && name[j - |folder| - 1] in name;
    }
    assert LastIndexOf(path, '\\') == |folder|;
    assert path[|folder| + 1..] == name;
  }

  /** A driver key registers a file exactly when the image it means is called
      that, and is reported with that image and whether it is there. */
  lemma RegisteredByItsImage(c: Context, key: ServiceKey, file: string, folder: string, name: string)
    requires name != "" && '\\' !in name && Spells(key.image, folder + "\\" + name, SystemRoot(c.environment))
    ensures var image := folder + "\\" + name;
            && (Registers(c, key, file) <==> EqFold(name, file))
            && (EqFold(name, file) ==>
                  RegisteredArtifact(c, file, key)
                  == Driver(file, Some(key.name), image, c.machine.path(image) == Lookup.Found(PathKind.File)))
  {
    hide Spells; hide ImageFile; hide EqFold; hide FileName; hide SystemRoot;
    SpelledImageIsRead(key.image, folder + "\\" + name, SystemRoot(c.environment));
    NameAfterSeparator(folder, name);
  }

  /** Two texts for one image. */
  ghost predicate SpelledAlike(a: string, b: string, root: string) {
    exists image :: Spells(a, image, root) && Spells(b, image, root)
  }

  lemma SameFile(a: string, b: string, root: string)
    requires SpelledAlike(a, b, root)
    ensures ImageFile(a, root).Some? && ImageFile(a, root) == ImageFile(b, root)
  {
    hide Spells; hide ImageFile;
    var image :| Spells(a, image, root) && Spells(b, image, root);
    SpelledImageIsRead(a, image, root);
    SpelledImageIsRead(b, image, root);
  }

  /** However a service's image is written, it is judged alike. */
  lemma SpellingMovesNoJudgement(c: Context, artifact: Artifact, a: string, b: string)
    requires SpelledAlike(a, b, SystemRoot(c.environment))
    ensures WithImage(c, artifact, a) == WithImage(c, artifact, b)
  {
    hide SpelledAlike; hide ImageFile; hide SystemRoot; hide Judge;
    SameFile(a, b, SystemRoot(c.environment));
  }

  ghost predicate KeysAlike(a: seq<ServiceKey>, b: seq<ServiceKey>, root: string) {
    |a| == |b| && forall i :: 0 <= i < |a| ==> a[i].name == b[i].name && SpelledAlike(a[i].image, b[i].image, root)
  }

  lemma KeyAlike(c: Context, d: Context, file: string, a: ServiceKey, b: ServiceKey)
    requires d == c.(driverKeys := d.driverKeys) && a.name == b.name
    requires SpelledAlike(a.image, b.image, SystemRoot(c.environment))
    ensures Registers(c, a, file) == Registers(d, b, file) && RegisteredDriver(c, file, a) == RegisteredDriver(d, file, b)
  {
    hide SpelledAlike; hide ImageFile; hide SystemRoot; hide Judge; hide EqFold; hide FileName;
    SameFile(a.image, b.image, SystemRoot(c.environment));
  }

  lemma {:induction false} DriversAlike(c: Context, d: Context, file: string, a: seq<ServiceKey>, b: seq<ServiceKey>)
    requires d == c.(driverKeys := d.driverKeys) && KeysAlike(a, b, SystemRoot(c.environment))
    ensures |Registered(c, a, file)| == |Registered(d, b, file)|
    ensures RegisteredDrivers(c, file, Registered(c, a, file)) == RegisteredDrivers(d, file, Registered(d, b, file))
    decreases |a|
  {
    hide SpelledAlike; hide Registers; hide RegisteredDriver; hide SystemRoot;
    if a != [] {
      var n := |a| - 1;
      KeyAlike(c, d, file, a[n], b[n]);
      DriversAlike(c, d, file, a[..n], b[..n]);
      if Registers(c, a[n], file) {
        DriversMore(c, file, Registered(c, a[..n], file), a[n]);
        DriversMore(d, file, Registered(d, b[..n], file), b[n]);
      } else {
        assert Registered(c, a[..n], file) + [] == Registered(c, a[..n], file);
        assert Registered(d, b[..n], file) + [] == Registered(d, b[..n], file);
      }
    }
  }

  lemma DriversMore(c: Context, file: string, keys: seq<ServiceKey>, key: ServiceKey)
    ensures RegisteredDrivers(c, file, keys + [key]) == RegisteredDrivers(c, file, keys) + [RegisteredDriver(c, file, key)]
  {
    hide RegisteredDriver;
    assert (keys + [key])[..|keys|] == keys;
  }

  /** However the images of the machine's driver keys are written, the audit says
      the same of a driver. */
  lemma SpellingMovesNoDriver(c: Context, d: Context, file: string)
    requires d == c.(driverKeys := d.driverKeys) && KeysAlike(c.driverKeys, d.driverKeys, SystemRoot(c.environment))
    ensures DriverOutcome(c, file) == DriverOutcome(d, file)
  {
    hide KeysAlike; hide SystemRoot; hide Judge; hide Registered; hide RegisteredDrivers;
    DriversAlike(c, d, file, c.driverKeys, d.driverKeys);
  }
}
