// Which paths a Steam manifest names, from the text of its entries:
// core/src/scan/libraries.rs.
module Libraries {
  import opened Prelude
  import opened Text
  import opened PathLaws
  import opened PathSpellings
  import opened KeyValues

  // ----- which block and which entry -----

  predicate IsFolderList(e: Entry) {
    e.value.Block? && EqFold(e.key, "libraryfolders")
  }

  predicate IsPathEntry(e: Entry) {
    e.value.Text? && EqFold(e.key, "path")
  }

  /** The libraries are those of the first block called `libraryfolders`, in any
      case; there are none when no block is. */
  lemma {:induction false} FirstFolderList(document: seq<Entry>, i: nat)
    requires i <= |document| && forall j :: 0 <= j < i ==> !IsFolderList(document[j])
    requires i < |document| ==> IsFolderList(document[i])
    ensures LibraryFolders(document) == if i < |document| then Some(document[i].value.entries) else None
  {
    hide EqFold;
    if i > 0 {
      FirstFolderList(document[1..], i - 1);
    }
  }

  /** A folder's path is its first text called `path`, in any case. */
  lemma {:induction false} FirstPathEntry(block: seq<Entry>, i: nat)
    requires i <= |block| && forall j :: 0 <= j < i ==> !IsPathEntry(block[j])
    requires i < |block| ==> IsPathEntry(block[i])
    ensures PathText(block) == if i < |block| then Some(block[i].value.text) else None
  {
    hide EqFold;
    if i > 0 {
      FirstPathEntry(block[1..], i - 1);
    }
  }

  /** In the older layout an entry is its path itself, under a number. */
  lemma OlderLayout(e: Entry)
    requires e.value.Text?
    ensures NamedPath(e) == if forall c :: c in e.key ==> '0' <= c <= '9' then Normalised(e.value.text) else None
  {
    hide Normalised;
  }

  lemma NewerLayout(e: Entry, i: nat)
    requires e.value.Block? && i < |e.value.entries| && IsPathEntry(e.value.entries[i])
    requires forall j :: 0 <= j < i ==> !IsPathEntry(e.value.entries[j])
    ensures NamedPath(e) == Normalised(e.value.entries[i].value.text)
  {
    hide Normalised; hide PathText; hide IsPathEntry;
    FirstPathEntry(e.value.entries, i);
  }

  // ----- the form of a path -----

  predicate Blanks(s: string) {
    forall c :: c in s ==> IsWhitespace(c)
  }

  predicate Separators(s: string) {
    forall c :: c in s ==> c == '/' || c == '\\'
  }

  /** A path as it stands between white space and separators at its end. */
  predicate Core(p: string) {
    && p != "" && !IsWhitespace(p[0])
    && !IsWhitespace(p[|p| - 1]) && p[|p| - 1] != '/' && p[|p| - 1] != '\\'
  }

  lemma {:induction false} LeadingBlanks(lead: string, s: string)
    requires Blanks(lead)
    ensures TrimStart(lead + s) == TrimStart(s)
  {
    if lead == "" {
      assert lead + s == s;
    } else {
      assert lead[0] in lead && (lead + s)[1..] == lead[1..] + s && forall c :: c in lead[1..] ==> c in lead;
      LeadingBlanks(lead[1..], s);
    }
  }

  lemma {:induction false} TrailingBlanks(s: string, trail: string)
    requires Blanks(trail)
    ensures TrimEnd(s + trail) == TrimEnd(s)
    decreases |trail|
  {
    if trail == "" {
      assert s + trail == s;
    } else {
      var n := |trail| - 1;
      assert trail[n] in trail && (s + trail)[..|s + trail| - 1] == s + trail[..n] && forall c :: c in trail[..n] ==> c in trail;
      TrailingBlanks(s, trail[..n]);
    }
  }

  lemma {:induction false} SeparatorsGo(s: string, seps: string)
    requires (forall c :: c in seps ==> c == '\\') && s != "" && s[|s| - 1] != '\\'
    ensures WithoutTrailing(s + seps, '\\') == s
    decreases |seps|
  {
    if seps == "" {
      assert s + seps == s;
    } else {
      var n := |seps| - 1;
      assert seps[n] in seps && (s + seps)[..|s + seps| - 1] == s + seps[..n] && forall c :: c in seps[..n] ==> c in seps;
      SeparatorsGo(s, seps[..n]);
    }
  }

  lemma UnifiedSeparators(seps: string)
    requires Separators(seps)
    ensures forall c :: c in Unified(seps) ==> c == '\\'
  {
    UnifiedAt(seps);
    forall i | 0 <= i < |seps| ensures Unified(seps)[i] == '\\' {
      assert seps[i] in seps;
    }
  }

  /** A manifest's path is named with backslashes and without what surrounds it,
      and a bare drive, one ASCII character and a colon, by its root. */
  lemma PathIsNormalised(lead: string, p: string, seps: string, trail: string)
    requires Blanks(lead) && Core(p) && Separators(seps) && Blanks(trail)
    ensures var u := Unified(p);
            Normalised(lead + (p + seps) + trail) == Some(if |u| == 2 && u[0] as int < 128 && u[1] == ':' then u + "\\" else u)
  {
    var text := lead + (p + seps) + trail;
    TrimmedPath(lead, p, seps, trail);
    UnifiedConcat(p, seps);
    UnifiedSeparators(seps);
    UnifiedEnd(p);
    hide Trim; hide Unified; hide WithoutTrailing;
    SeparatorsGo(Unified(p), Unified(seps));
  }

  lemma UnifiedEnd(p: string)
    requires Core(p)
    ensures Unified(p) != "" && Unified(p)[|Unified(p)| - 1] != '\\'
  {
    UnifiedAt(p);
    assert |Unified(p)| == |p|;
  }

  lemma TrimmedPath(lead: string, p: string, seps: string, trail: string)
    requires Blanks(lead) && Core(p) && Separators(seps) && Blanks(trail)
    ensures Trim(lead + (p + seps) + trail) == p + seps
  {
    hide IsWhitespace; hide TrimStart; hide TrimEnd; hide Blanks;
    var s := p + seps;
    assert lead + s + trail == lead + (s + trail);
    LeadingBlanks(lead, s + trail);
    BeginsWithCore(p, seps + trail);
    assert s + trail == p + (seps + trail);
    TrailingBlanks(s, trail);
    EndsInSeparators(p, seps);
  }

  lemma BeginsWithCore(p: string, more: string)
    requires Core(p)
    ensures TrimStart(p + more) == p + more
  {
    assert (p + more)[0] == p[0];
  }

  lemma EndsInSeparators(p: string, seps: string)
    requires Core(p) && Separators(seps)
    ensures TrimEnd(p + seps) == p + seps
  {
    var s := p + seps;
    if seps != "" {
      assert s[|s| - 1] == seps[|seps| - 1] && seps[|seps| - 1] in seps;
    } else {
      assert s == p;
    }
  }

  // ----- words -----

  /** A word without quotes ends at white space, a brace or a quote. */
  predicate IsBare(word: string) {
    && word != "" && (forall c :: c in word ==> !IsWhitespace(c) && c != '{' && c != '}' && c != '"')
    && !("//" <= word)
  }

  predicate EndsBare(rest: string) {
    rest == "" || IsWhitespace(rest[0]) || rest[0] == '{' || rest[0] == '}' || rest[0] == '"'
  }

  lemma {:induction false} BareIs(word: string, rest: string)
    requires (forall c :: c in word ==> !EndsWord(c)) && EndsBare(rest)
    ensures BareLength(word + rest) == |word|
  {
    if word == "" {
      assert word + rest == rest;
    } else {
      assert (word + rest)[0] == word[0] && word[0] in word && (word + rest)[1..] == word[1..] + rest;
      assert forall c :: c in word[1..] ==> c in word;
      BareIs(word[1..], rest);
    }
  }

  lemma BareWordTokens(word: string, rest: string)
    requires IsBare(word) && EndsBare(rest) && (word == "/" && rest != "" ==> rest[0] != '/')
    ensures Tokens(word + rest) == Prepended([Word(word)], Tokens(rest))
  {
    var s := word + rest;
    BareParts(word, rest);
    assert forall c :: c in word[1..] ==> c in word;
    BareIs(word[1..], rest);
    NotAComment(word, rest);
    hide BareLength; hide IsWhitespace; hide IsBare; hide EndsBare; hide Quoted; hide CommentLength;
    OneWord(s, |word|);
  }

  lemma BareParts(word: string, rest: string)
    requires IsBare(word)
    ensures var s := word + rest;
            && s[0] == word[0] && s[1..] == word[1..] + rest && s[..|word|] == word && s[|word|..] == rest
            && !EndsWord(s[0])
  {
    assert word[0] in word;
  }

  lemma NotAComment(word: string, rest: string)
    requires IsBare(word) && (word == "/" && rest != "" ==> rest[0] != '/')
    ensures var s := word + rest; s[0] == '/' && |s| > 1 ==> s[1] != '/'
  {
    hide IsWhitespace;
  }

  lemma OneWord(s: string, n: nat)
    requires s != "" && !EndsWord(s[0]) && (s[0] == '/' && |s| > 1 ==> s[1] != '/') && n == 1 + BareLength(s[1..])
    ensures Tokens(s) == Prepended([Word(s[..n])], Tokens(s[n..]))
  {
    hide BareLength; hide Quoted; hide CommentLength;
  }

  /** A comment may end the text. */
  lemma {:induction false} CommentToTheEnd(comment: string)
    requires '\n' !in comment
    ensures CommentLength(comment) == |comment|
  {
    if comment != "" {
      CommentToTheEnd(comment[1..]);
    }
  }

  lemma LastComment(comment: string)
    requires '\n' !in comment
    ensures Tokens("//" + comment) == Ok([])
  {
    var text := "//" + comment;
    assert text[1..] == "/" + comment;
    CommentToTheEnd("/" + comment);
    assert text[1 + CommentLength(text[1..])..] == "";
  }

  /** In a quoted word a backslash makes any character itself, but for the line
      feed and the tab it names; and a word that is not closed is an error. */
  lemma EscapedCharacter(c: char, rest: string)
    ensures Quoted("\\" + ([c] + rest)) ==
              LexemeAfter([if c == 'n' then '\n' else if c == 't' then '\t' else c], 2, Quoted(rest))
  {
    var s := "\\" + ([c] + rest);
    assert s[0] == '\\' && s[1] == c && s[2..] == rest;
    hide LexemeAfter;
    QuotedStep(s);
  }

  lemma QuotedStep(s: string)
    requires |s| >= 2 && s[0] == '\\'
    ensures Quoted(s) == LexemeAfter([Unescaped(s[1])], 2, Quoted(s[2..]))
  {
  }

  lemma {:induction false} UnclosedIsNoWord(s: string)
    requires '"' !in s
    ensures Quoted(s) == None
    decreases |s|
  {
    if s != "" {
      assert forall c :: c in s[1..] ==> c in s;
      if |s| >= 2 {
        assert forall c :: c in s[2..] ==> c in s;
        UnclosedIsNoWord(s[2..]);
      }
      UnclosedIsNoWord(s[1..]);
      assert s[0] in s;
    }
  }
}
