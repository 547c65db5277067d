// Valve's key-values text, as core/src/scan/libraries.rs reads it: a tokeniser,
// a recursive-descent parser, and the library list taken from the tree.
module KeyValues {
  import opened Prelude
  import opened Text

  datatype Entry = Entry(key: string, value: Value)

  datatype Value = Text(text: string) | Block(entries: seq<Entry>)

  datatype Token = Word(text: string) | Open | Close

  datatype ParseError =
    | UnterminatedString
    | BlockWithNoKey
    | NeverClosed(key: string)
    | NoValue(key: string)
    | UnbalancedClose
    | NoLibraryFolders

  // ----- tokens -----

  /** A lexeme's text, and how many characters it took. */
  datatype Lexeme = Lexeme(text: string, used: nat)

  function Unescaped(c: char): char {
    if c == 'n' then '\n' else if c == 't' then '\t' else c
  }

  /** What follows an opening quote, up to and with its closing one. */
  function Quoted(s: string): (r: Option<Lexeme>)
    ensures r.Some? ==> 0 < r.value.used <= |s|
  {
    if s == "" then None
    else if s[0] == '"' then Some(Lexeme("", 1))
    else if s[0] == '\\' && |s| == 1 then None
    else
      var width := if s[0] == '\\' then 2 else 1;
      var c := if s[0] == '\\' then Unescaped(s[1]) else s[0];
      match Quoted(s[width..])
      case None => None
      case Some(rest) => Some(Lexeme([c] + rest.text, width + rest.used))
  }

  /** How much of `s` a comment takes: to the end of the line, and with it. */
  function CommentLength(s: string): (n: nat)
    ensures n <= |s|
  {
    if s == "" then 0 else if s[0] == '\n' then 1 else 1 + CommentLength(s[1..])
  }

  predicate EndsWord(c: char) {
    IsWhitespace(c) || c == '{' || c == '}' || c == '"'
  }

  function BareLength(s: string): (n: nat)
    ensures n <= |s|
  {
    if s == "" || EndsWord(s[0]) then 0 else 1 + BareLength(s[1..])
  }

  function Prepended(tokens: seq<Token>, rest: Result<seq<Token>, ParseError>): Result<seq<Token>, ParseError> {
    match rest
    case Ok(more) => Ok(tokens + more)
    case Err(_) => rest
  }

  /** The tokens of a text, or why it has none. */
  function Tokens(s: string): Result<seq<Token>, ParseError>
    decreases |s|
  {
    if s == "" then Ok([])
    else if s[0] == '{' then Prepended([Open], Tokens(s[1..]))
    else if s[0] == '}' then Prepended([Close], Tokens(s[1..]))
    else if s[0] == '"' then
      match Quoted(s[1..])
      case None => Err(UnterminatedString)
      case Some(word) => Prepended([Word(word.text)], Tokens(s[1 + word.used..]))
    else if s[0] == '/' && |s| > 1 && s[1] == '/' then Tokens(s[1 + CommentLength(s[1..])..])
    else if IsWhitespace(s[0]) then Tokens(s[1..])
    else
      var n := 1 + BareLength(s[1..]);
      Prepended([Word(s[..n])], Tokens(s[n..]))
  }

  /** A lexeme read after some characters that made `text`. */
  function LexemeAfter(text: string, used: nat, rest: Option<Lexeme>): Option<Lexeme> {
    match rest
    case None => None
    case Some(more) => Some(Lexeme(text + more.text, used + more.used))
  }

  lemma AfterAfter(a: string, n: nat, b: string, m: nat, rest: Option<Lexeme>)
    ensures LexemeAfter(a, n, LexemeAfter(b, m, rest)) == LexemeAfter(a + b, n + m, rest)
    ensures LexemeAfter("", 0, rest) == rest
  {
    if rest.Some? {
      assert a + (b + rest.value.text) == a + b + rest.value.text;
      assert "" + rest.value.text == rest.value.text;
    }
  }

  /** The loop over what follows an opening quote, which leaves the iterator
      after the closing one. */
  method ReadQuoted(text: string) returns (r: Option<string>, rest: string)
    ensures r.Some? <==> Quoted(text).Some?
    ensures r.Some? ==> |rest| < |text| && rest == text[|text| - |rest|..]
    ensures r.Some? ==> Quoted(text) == Some(Lexeme(r.value, |text| - |rest|))
  {
    var value := "";
    rest := text;
    AfterAfter("", 0, "", 0, Quoted(text));
    while rest != ""
      invariant |rest| <= |text| && rest == text[|text| - |rest|..]
      invariant Quoted(text) == LexemeAfter(value, |text| - |rest|, Quoted(rest))
      decreases |rest|
    {
      var c := rest[0];
      if c == '"' {
        assert value + "" == value;
        return Some(value), rest[1..];
      }
      if c == '\\' && |rest| == 1 {
        return None, rest;
      }
      QuotedStep(rest);
      hide Quoted;
      var width := 1;
      if c == '\\' {
        c, width := Unescaped(rest[1]), 2;
      }
      AfterAfter(value, |text| - |rest|, [c], width, Quoted(rest[width..]));
      value, rest := value + [c], rest[width..];
    }
    r := None;
  }

  method SkipComment(text: string) returns (rest: string)
    ensures rest == text[CommentLength(text)..]
  {
    rest := text;
    while rest != ""
      invariant |rest| <= |text| && rest == text[|text| - |rest|..]
      invariant CommentLength(text) == |text| - |rest| + CommentLength(rest)
      decreases |rest|
    {
      var c := rest[0];
      rest := rest[1..];
      if c == '\n' {
        return;
      }
    }
  }

  method ReadBare(text: string) returns (value: string, rest: string)
    ensures value == text[..BareLength(text)] && rest == text[BareLength(text)..]
  {
    value, rest := "", text;
    while rest != "" && !EndsWord(rest[0])
      invariant text == value + rest
      invariant BareLength(text) == |value| + BareLength(rest)
      decreases |rest|
    {
      value, rest := value + [rest[0]], rest[1..];
    }
  }

  /** `tokenise`. */
  method Tokenise(text: string) returns (r: Result<seq<Token>, ParseError>)
    ensures r == Tokens(text)
  {
    var tokens: seq<Token> := [];
    var rest := text;
    BeforeBefore([], [], Tokens(text));
    while rest != ""
      invariant Tokens(text) == Prepended(tokens, Tokens(rest))
      decreases |rest|
    {
      var c, read := rest[0], [];
      ghost var from := rest;
      rest := rest[1..];
      if c == '{' {
        read := [Open];
      } else if c == '}' {
        read := [Close];
      } else if c == '"' {
        var value;
        value, rest := ReadQuoted(rest);
        if value.None? {
          return Err(UnterminatedString);
        }
        read := [Word(value.value)];
      } else if c == '/' && rest != "" && rest[0] == '/' {
        rest := SkipComment(rest);
      } else if IsWhitespace(c) {
      } else {
        var value;
        value, rest := ReadBare(rest);
        read := [Word([c] + value)];
        assert from[..1 + |value|] == [c] + value;
      }
      BeforeBefore([], [], Tokens(rest));
      assert Tokens(from) == Prepended(read, Tokens(rest));
      BeforeBefore(tokens, read, Tokens(rest));
      tokens := tokens + read;
    }
    assert tokens + [] == tokens;
    r := Ok(tokens);
  }

  lemma BeforeBefore(a: seq<Token>, b: seq<Token>, rest: Result<seq<Token>, ParseError>)
    ensures Prepended(a, Prepended(b, rest)) == Prepended(a + b, rest)
    ensures Prepended([], rest) == rest
  {
    if rest.Ok? {
      assert a + (b + rest.value) == a + b + rest.value;
      assert [] + rest.value == rest.value;
    }
  }

  // ----- entries -----

  datatype Parsed = Parsed(entries: seq<Entry>, rest: seq<Token>)

  function Then(entries: seq<Entry>, rest: Result<Parsed, ParseError>): Result<Parsed, ParseError> {
    match rest
    case Ok(p) => Ok(Parsed(entries + p.entries, p.rest))
    case Err(_) => rest
  }

  /** The entries at the head of some tokens, up to a close or the end. */
  function Entries(tokens: seq<Token>): (r: Result<Parsed, ParseError>)
    ensures r.Ok? ==> |r.value.rest| <= |tokens|
    decreases |tokens|
  {
    if tokens == [] || tokens[0] == Close then Ok(Parsed([], tokens))
    else if tokens[0] == Open then Err(BlockWithNoKey)
    else
      var key := tokens[0].text;
      if |tokens| == 1 || tokens[1] == Close then Err(NoValue(key))
      else if tokens[1].Word? then
        Then([Entry(key, Text(tokens[1].text))], Entries(tokens[2..]))
      else
        match Entries(tokens[2..])
        case Err(error) => Err(error)
        case Ok(inner) =>
          if inner.rest == [] || inner.rest[0] != Close then Err(NeverClosed(key))
          else Then([Entry(key, Block(inner.entries))], Entries(inner.rest[1..]))
  }

  /** `entries`, which advances `position` over what it reads. */
  method ParseEntries(tokens: seq<Token>, start: nat) returns (r: Result<seq<Entry>, ParseError>, position: nat)
    requires start <= |tokens|
    ensures start <= position <= |tokens|
    ensures match r
            case Ok(es) => Entries(tokens[start..]) == Ok(Parsed(es, tokens[position..]))
            case Err(error) => Entries(tokens[start..]) == Err(error)
    decreases |tokens| - start, 1
  {
    var parsed: seq<Entry> := [];
    position := start;
    ThenThen([], [], Entries(tokens[start..]));
    while position < |tokens| && tokens[position] != Close
      invariant start <= position <= |tokens|
      invariant Entries(tokens[start..]) == Then(parsed, Entries(tokens[position..]))
      decreases |tokens| - position
    {
      if tokens[position] == Open {
        return Err(BlockWithNoKey), position;
      }
      var key, value := tokens[position].text, Err(BlockWithNoKey);
      value, position := ParseValue(tokens, position + 1, key);
      if value.Err? {
        return Err(value.error), position;
      }
      ThenThen(parsed, [Entry(key, value.value)], Entries(tokens[position..]));
      parsed := parsed + [Entry(key, value.value)];
    }
    assert parsed + [] == parsed;
    r := Ok(parsed);
  }

  /** The value after a key: a text, or a block with entries of its own. */
  method ParseValue(tokens: seq<Token>, start: nat, key: string) returns (r: Result<Value, ParseError>, position: nat)
    requires 0 < start <= |tokens| && tokens[start - 1] == Word(key)
    ensures start <= position <= |tokens|
    ensures var all := Entries(tokens[start - 1..]);
            match r
            case Ok(value) => all == Then([Entry(key, value)], Entries(tokens[position..]))
            case Err(error) => all == Err(error)
    decreases |tokens| - start, 2
  {
    ghost var all := tokens[start - 1..];
    assert all[0] == Word(key) && (start < |tokens| ==> all[1] == tokens[start]);
    EntriesAfterKey(all);
    hide Entries; hide Then;
    position := start;
    if position == |tokens| || tokens[position] == Close {
      return Err(NoValue(key)), position;
    }
    assert all[2..] == tokens[position + 1..];
    position := position + 1;
    if tokens[position - 1].Word? {
      return Ok(Text(tokens[position - 1].text)), position;
    }
    var inner;
    inner, position := ParseEntries(tokens, position);
    if inner.Err? {
      return Err(inner.error), position;
    }
    if position == |tokens| || tokens[position] != Close {
      return Err(NeverClosed(key)), position;
    }
    assert tokens[position..][1..] == tokens[position + 1..];
    return Ok(Block(inner.value)), position + 1;
  }

  /** What the entries at a key are, by the token after it. */
  lemma EntriesAfterKey(tokens: seq<Token>)
    requires tokens != [] && tokens[0].Word?
    ensures var key := tokens[0].text;
            Entries(tokens)
            == if |tokens| == 1 || tokens[1] == Close then Err(NoValue(key))
               else if tokens[1].Word? then Then([Entry(key, Text(tokens[1].text))], Entries(tokens[2..]))
               else match Entries(tokens[2..])
                    case Err(error) => Err(error)
                    case Ok(inner) =>
                      if inner.rest == [] || inner.rest[0] != Close then Err(NeverClosed(key))
                      else Then([Entry(key, Block(inner.entries))], Entries(inner.rest[1..]))
  {
    hide Then;
  }

  lemma ThenThen(a: seq<Entry>, b: seq<Entry>, rest: Result<Parsed, ParseError>)
    ensures Then(a, Then(b, rest)) == Then(a + b, rest)
    ensures Then([], rest) == rest
  {
    if rest.Ok? {
      assert [] + rest.value.entries == rest.value.entries;
      assert a + (b + rest.value.entries) == a + b + rest.value.entries;
    }
  }

  function Tree(tokens: seq<Token>): Result<seq<Entry>, ParseError> {
    match Entries(tokens)
    case Err(error) => Err(error)
    case Ok(p) => if p.rest == [] then Ok(p.entries) else Err(UnbalancedClose)
  }

  function Document(text: string): Result<seq<Entry>, ParseError> {
    match Tokens(text)
    case Err(error) => Err(error)
    case Ok(tokens) => Tree(tokens)
  }

  /** `key_values`. */
  method ParseDocument(text: string) returns (r: Result<seq<Entry>, ParseError>)
    ensures r == Document(text)
  {
    var tokens := Tokenise(text);
    if tokens.Err? {
      return Err(tokens.error);
    }
    var position;
    r, position := ParseEntries(tokens.value, 0);
    assert tokens.value[0..] == tokens.value;
    if r.Ok? && position != |tokens.value| {
      r := Err(UnbalancedClose);
    }
  }

  // ----- exactness -----

  /** A tree's tokens. */
  function Flat(entries: seq<Entry>): seq<Token> {
    if entries == [] then [] else FlatEntry(entries[0]) + Flat(entries[1..])
  }

  function FlatEntry(e: Entry): seq<Token> {
    [Word(e.key)] + match e.value
                    case Text(text) => [Word(text)]
                    case Block(entries) => [Open] + Flat(entries) + [Close]
  }

  lemma FlatCons(e: Entry, es: seq<Entry>, rest: seq<Token>)
    ensures Flat([e] + es) + rest == FlatEntry(e) + (Flat(es) + rest)
  {
    assert ([e] + es)[1..] == es;
    assert FlatEntry(e) + (Flat(es) + rest) == FlatEntry(e) + Flat(es) + rest;
  }

  lemma FlatNone()
    ensures Flat([]) == []
  {
  }

  lemma FlatText(key: string, text: string)
    ensures FlatEntry(Entry(key, Text(text))) == [Word(key), Word(text)]
  {
  }

  lemma FlatBlock(key: string, inner: seq<Entry>, rest: seq<Token>)
    ensures FlatEntry(Entry(key, Block(inner))) + rest == [Word(key), Open] + (Flat(inner) + ([Close] + rest))
  {
  }

  lemma TextFirst(tokens: seq<Token>)
    requires Entries(tokens).Ok? && |tokens| > 1 && tokens[0].Word? && tokens[1].Word?
    ensures var more := Entries(tokens[2..]);
            && more.Ok?
            && Entries(tokens) == Ok(Parsed([Entry(tokens[0].text, Text(tokens[1].text))] + more.value.entries, more.value.rest))
  {
  }

  lemma BlockFirst(tokens: seq<Token>)
    requires Entries(tokens).Ok? && |tokens| > 1 && tokens[0].Word? && tokens[1] == Open
    ensures Entries(tokens[2..]).Ok?
    ensures var inner := Entries(tokens[2..]).value;
            && inner.rest != [] && inner.rest[0] == Close
            && Entries(inner.rest[1..]).Ok?
            && var more := Entries(inner.rest[1..]).value;
               Entries(tokens) == Ok(Parsed([Entry(tokens[0].text, Block(inner.entries))] + more.entries, more.rest))
  {
  }

  lemma KeyFirst(tokens: seq<Token>)
    requires Entries(tokens).Ok? && tokens != [] && tokens[0] != Close
    ensures |tokens| > 1 && tokens[0].Word? && tokens[1] != Close
  {
  }

  lemma TextIsFlat(tokens: seq<Token>, key: string, text: string, more: Parsed)
    requires |tokens| > 1 && tokens[0] == Word(key) && tokens[1] == Word(text)
    requires tokens[2..] == Flat(more.entries) + more.rest
    ensures tokens == Flat([Entry(key, Text(text))] + more.entries) + more.rest
  {
    FlatText(key, text);
    hide Flat; hide FlatEntry;
    FlatCons(Entry(key, Text(text)), more.entries, more.rest);
    assert tokens == [tokens[0], tokens[1]] + tokens[2..];
  }

  lemma BlockIsFlat(tokens: seq<Token>, key: string, inner: Parsed, more: Parsed)
    requires |tokens| > 1 && tokens[0] == Word(key) && tokens[1] == Open
    requires tokens[2..] == Flat(inner.entries) + inner.rest && inner.rest != [] && inner.rest[0] == Close
    requires inner.rest[1..] == Flat(more.entries) + more.rest
    ensures tokens == Flat([Entry(key, Block(inner.entries))] + more.entries) + more.rest
  {
    hide Flat; hide FlatEntry;
    FlatCons(Entry(key, Block(inner.entries)), more.entries, more.rest);
    FlatBlock(key, inner.entries, inner.rest[1..]);
    assert inner.rest == [Close] + inner.rest[1..];
    assert tokens == [tokens[0], tokens[1]] + tokens[2..];
  }

  lemma {:induction false} EntriesAreFlat(tokens: seq<Token>)
    requires Entries(tokens).Ok?
    ensures var p := Entries(tokens).value; tokens == Flat(p.entries) + p.rest
    ensures var p := Entries(tokens).value; p.rest == [] || p.rest[0] == Close
    decreases |tokens|
  {
    if tokens == [] || tokens[0] == Close {
      FlatNone();
      assert [] + tokens == tokens;
    } else {
      KeyFirst(tokens);
      if tokens[1].Word? {
        TextFirst(tokens);
        hide Entries; hide Flat;
        EntriesAreFlat(tokens[2..]);
        TextIsFlat(tokens, tokens[0].text, tokens[1].text, Entries(tokens[2..]).value);
      } else {
        BlockFirst(tokens);
        hide Entries; hide Flat;
        EntriesAreFlat(tokens[2..]);
        var inner := Entries(tokens[2..]).value;
        EntriesAreFlat(inner.rest[1..]);
        BlockIsFlat(tokens, tokens[0].text, inner, Entries(inner.rest[1..]).value);
      }
    }
  }

  lemma {:induction false} FlatParses(entries: seq<Entry>, rest: seq<Token>)
    requires rest == [] || rest[0] == Close
    ensures Entries(Flat(entries) + rest) == Ok(Parsed(entries, rest))
    decreases entries
  {
    if entries == [] {
      assert Flat(entries) + rest == rest;
    } else {
      var e, more := entries[0], Flat(entries[1..]) + rest;
      assert [e] + entries[1..] == entries;
      FlatCons(e, entries[1..], rest);
      FlatParses(entries[1..], rest);
      hide Entries;
      match e.value {
        case Text(text) =>
          assert FlatEntry(e) == [Word(e.key), Word(text)];
          TextParses(e.key, text, more);
        case Block(inner) =>
          FlatBlock(e.key, inner, more);
          FlatParses(inner, [Close] + more);
          BlockParses(e.key, inner, Flat(inner) + ([Close] + more), more);
      }
    }
  }

  lemma TextParses(key: string, text: string, more: seq<Token>)
    ensures Entries([Word(key), Word(text)] + more) == Then([Entry(key, Text(text))], Entries(more))
  {
    assert ([Word(key), Word(text)] + more)[2..] == more;
  }

  lemma BlockParses(key: string, inner: seq<Entry>, tokens: seq<Token>, more: seq<Token>)
    requires Entries(tokens) == Ok(Parsed(inner, [Close] + more))
    ensures Entries([Word(key), Open] + tokens) == Then([Entry(key, Block(inner))], Entries(more))
  {
    assert ([Word(key), Open] + tokens)[2..] == tokens;
    assert ([Close] + more)[1..] == more;
  }

  /** The parser is exact: it accepts a tree's own tokens as that tree, and
      nothing else. */
  lemma TreeIsFlat(tokens: seq<Token>, entries: seq<Entry>)
    ensures Tree(tokens) == Ok(entries) <==> tokens == Flat(entries)
  {
    if Tree(tokens) == Ok(entries) {
      EntriesAreFlat(tokens);
    }
    if tokens == Flat(entries) {
      FlatParses(entries, []);
      assert Flat(entries) + [] == tokens;
    }
  }

  // ----- printing, which the source leaves to Steam -----

  function EscapedChar(c: char): string {
    match c
    case '"' => "\\\""
    case '\\' => "\\\\"
    case '\n' => "\\n"
    case '\t' => "\\t"
    case _ => [c]
  }

  function Escaped(s: string): string {
    if s == "" then "" else EscapedChar(s[0]) + Escaped(s[1..])
  }

  function QuotedText(s: string): string {
    "\"" + (Escaped(s) + "\"")
  }

  /** A tree as text, indented or separated by any white space. */
  function Printed(entries: seq<Entry>, gap: string): string {
    if entries == [] then "" else PrintedEntry(entries[0], gap) + Printed(entries[1..], gap)
  }

  function PrintedEntry(e: Entry, gap: string): string {
    QuotedText(e.key) + (gap + match e.value
                               case Text(text) => QuotedText(text) + gap
                               case Block(entries) => "{" + (gap + (Printed(entries, gap) + ("}" + gap))))
  }

  lemma QuotedEscapedChar(c: char, rest: string)
    ensures Quoted(EscapedChar(c) + rest) == LexemeAfter([c], |EscapedChar(c)|, Quoted(rest))
  {
    var s := EscapedChar(c) + rest;
    assert s[|EscapedChar(c)|..] == rest;
    QuotedStep(s);
    hide Quoted; hide LexemeAfter;
  }

  /** A character of a quoted text, or an escape. */
  lemma QuotedStep(s: string)
    requires s != "" && s[0] != '"' && !(s[0] == '\\' && |s| == 1)
    ensures Quoted(s) == if s[0] == '\\' then LexemeAfter([Unescaped(s[1])], 2, Quoted(s[2..])) else LexemeAfter([s[0]], 1, Quoted(s[1..]))
  {
  }

  lemma QuotedEnd(rest: string)
    ensures Quoted("\"" + rest) == Some(Lexeme("", 1))
  {
  }

  lemma Nested(a: string, b: string, c: string)
    ensures (a + b) + c == a + (b + c)
  {
  }

  lemma {:induction false} QuotedEscaped(s: string, rest: string)
    ensures Quoted(Escaped(s) + ("\"" + rest)) == Some(Lexeme(s, |Escaped(s)| + 1))
  {
    hide Quoted; hide EscapedChar;
    if s == "" {
      assert Escaped(s) + ("\"" + rest) == "\"" + rest;
      QuotedEnd(rest);
    } else {
      var tail := Escaped(s[1..]) + ("\"" + rest);
      QuotedEscaped(s[1..], rest);
      Nested(EscapedChar(s[0]), Escaped(s[1..]), "\"" + rest);
      QuotedEscapedChar(s[0], tail);
      assert [s[0]] + s[1..] == s;
    }
  }

  lemma QuotedTokens(s: string, rest: string)
    ensures Tokens(QuotedText(s) + rest) == Prepended([Word(s)], Tokens(rest))
  {
    QuotedEscaped(s, rest);
    var text := QuotedText(s) + rest;
    assert text[1..] == Escaped(s) + ("\"" + rest);
    assert text[1 + (|Escaped(s)| + 1)..] == rest;
  }

  /** Space between tokens, and comments, make no token. */
  lemma {:induction false} GapTokens(gap: string, rest: string)
    requires forall c :: c in gap ==> IsWhitespace(c)
    ensures Tokens(gap + rest) == Tokens(rest)
  {
    if gap == "" {
      assert gap + rest == rest;
    } else {
      assert gap[0] in gap && forall c :: c in gap[1..] ==> c in gap;
      GapTokens(gap[1..], rest);
      SpaceTokens(gap[0], gap[1..] + rest);
      assert gap + rest == [gap[0]] + (gap[1..] + rest);
    }
  }

  lemma SpaceTokens(c: char, rest: string)
    requires IsWhitespace(c)
    ensures Tokens([c] + rest) == Tokens(rest)
  {
    assert ([c] + rest)[1..] == rest;
  }

  lemma {:induction false} CommentTokens(comment: string, rest: string)
    requires '\n' !in comment
    ensures Tokens("//" + comment + "\n" + rest) == Tokens(rest)
  {
    var text := "//" + comment + "\n" + rest;
    assert text[1..] == "/" + comment + "\n" + rest;
    CommentRuns("/" + comment, rest);
    assert text[1 + CommentLength(text[1..])..] == rest;
  }

  lemma {:induction false} CommentRuns(comment: string, rest: string)
    requires '\n' !in comment
    ensures CommentLength(comment + "\n" + rest) == |comment| + 1
  {
    if comment != "" {
      assert (comment + "\n" + rest)[1..] == comment[1..] + "\n" + rest;
      CommentRuns(comment[1..], rest);
    }
  }

  lemma {:induction false} PrintedTokens(entries: seq<Entry>, gap: string, rest: string)
    requires forall c :: c in gap ==> IsWhitespace(c)
    ensures Tokens(Printed(entries, gap) + rest) == Prepended(Flat(entries), Tokens(rest))
    decreases entries, 1
  {
    if entries == [] {
      assert Printed(entries, gap) + rest == rest;
      BeforeBefore([], [], Tokens(rest));
    } else {
      var more := Printed(entries[1..], gap) + rest;
      assert Printed(entries, gap) + rest == PrintedEntry(entries[0], gap) + more;
      PrintedEntryTokens(entries[0], gap, more);
      PrintedTokens(entries[1..], gap, rest);
      BeforeBefore(FlatEntry(entries[0]), Flat(entries[1..]), Tokens(rest));
    }
  }

  lemma {:induction false} PrintedEntryTokens(e: Entry, gap: string, rest: string)
    requires forall c :: c in gap ==> IsWhitespace(c)
    ensures Tokens(PrintedEntry(e, gap) + rest) == Prepended(FlatEntry(e), Tokens(rest))
    decreases e, 0
  {
    match e.value {
      case Text(text) =>
        var afterKey := gap + (QuotedText(text) + (gap + rest));
        assert PrintedEntry(e, gap) + rest == QuotedText(e.key) + afterKey;
        QuotedTokens(e.key, afterKey);
        GapTokens(gap, QuotedText(text) + (gap + rest));
        QuotedTokens(text, gap + rest);
        GapTokens(gap, rest);
        BeforeBefore([Word(e.key)], [Word(text)], Tokens(rest));
      case Block(inner) =>
        var closing := "}" + (gap + rest);
        var body := Printed(inner, gap) + closing;
        var opening := "{" + (gap + body);
        assert PrintedEntry(e, gap) + rest == QuotedText(e.key) + (gap + opening);
        QuotedTokens(e.key, gap + opening);
        GapTokens(gap, opening);
        assert opening[1..] == gap + body;
        GapTokens(gap, body);
        PrintedTokens(inner, gap, closing);
        assert closing[1..] == gap + rest;
        GapTokens(gap, rest);
        BeforeBefore(Flat(inner), [Close], Tokens(rest));
        BeforeBefore([Open], Flat(inner) + [Close], Tokens(rest));
        BeforeBefore([Word(e.key)], [Open] + (Flat(inner) + [Close]), Tokens(rest));
        assert FlatEntry(e) == [Word(e.key)] + ([Open] + (Flat(inner) + [Close]));
    }
  }

  /** Every tree over any strings survives being printed and read back. */
  lemma PrintedDocument(entries: seq<Entry>, gap: string)
    requires forall c :: c in gap ==> IsWhitespace(c)
    ensures Document(Printed(entries, gap)) == Ok(entries)
  {
    PrintedTokens(entries, gap, "");
    assert Printed(entries, gap) + "" == Printed(entries, gap);
    assert Flat(entries) + [] == Flat(entries);
    TreeIsFlat(Flat(entries), entries);
  }

  // ----- the library list -----

  /** `D:` and the like. The source counts bytes, so the letter is ASCII. */
  predicate IsDrive(path: string) {
    |path| == 2 && path[0] as int < 128 && path[1] == ':'
  }

  function Normalised(path: string): Option<string> {
    var trimmed := WithoutTrailing(Unified(Trim(path)), '\\');
    var whole := if IsDrive(trimmed) then trimmed + "\\" else trimmed;
    if whole == "" then None else Some(whole)
  }

  /** What `Library::path` promises: backslashes, and no separator at the end
      but a bare drive's. */
  lemma NormalisedForm(path: string)
    requires Normalised(path).Some?
    ensures var p := Normalised(path).value;
            && p != "" && '/' !in p
            && (p[|p| - 1] == '\\' ==> |p| == 3 && IsDrive(p[..2]))
  {
    var trimmed := WithoutTrailing(Unified(Trim(path)), '\\');
    var p := Normalised(path).value;
    UnifiedAt(Trim(path));
    assert IsDrive(trimmed) ==> p[..2] == trimmed;
  }

  function LibraryFolders(document: seq<Entry>): Option<seq<Entry>> {
    if document == [] then None
    else if document[0].value.Block? && EqFold(document[0].key, "libraryfolders") then Some(document[0].value.entries)
    else LibraryFolders(document[1..])
  }

  function PathText(block: seq<Entry>): Option<string> {
    if block == [] then None
    else if block[0].value.Text? && EqFold(block[0].key, "path") then Some(block[0].value.text)
    else PathText(block[1..])
  }

  /** The path one folder entry names, in either layout. */
  function NamedPath(e: Entry): Option<string> {
    var raw := match e.value
               case Block(entries) => PathText(entries)
               case Text(text) => if AllDigits(e.key) then Some(text) else None;
    match raw
    case None => None
    case Some(text) => Normalised(text)
  }

  predicate AlreadySeen(paths: seq<string>, path: string) {
    exists i :: 0 <= i < |paths| && EqFold(paths[i], path)
  }

  /** The paths the entries name, in file order. */
  function NamedLibraries(folders: seq<Entry>): seq<string> {
    if folders == [] then []
    else
      var last := NamedPath(folders[|folders| - 1]);
      NamedLibraries(folders[..|folders| - 1]) + (if last.Some? then [last.value] else [])
  }

  /** Those paths with later spellings of an earlier one left out. */
  function FirstSpellings(named: seq<string>): seq<string> {
    if named == [] then []
    else
      var paths, last := FirstSpellings(named[..|named| - 1]), named[|named| - 1];
      if AlreadySeen(paths, last) then paths else paths + [last]
  }

  /** The path is named, and nothing before it is a spelling of it. */
  ghost predicate FirstNamed(named: seq<string>, path: string) {
    exists k :: 0 <= k < |named| && named[k] == path && forall j :: 0 <= j < k ==> !EqFold(named[j], path)
  }

  /** Each named path is there once, in the spelling it first has. */
  lemma FirstSpellingsAreDistinct(named: seq<string>)
    ensures var paths := FirstSpellings(named);
            && Distinct(paths)
            && (forall p :: p in named ==> AlreadySeen(paths, p))
            && (forall p :: p in paths ==> FirstNamed(named, p))
  {
    SpellingsDiffer(named);
    EveryNameIsSeen(named);
    SpellingsAreFirst(named);
  }

  /** No two are spellings of one path. */
  ghost predicate Distinct(paths: seq<string>) {
    forall i, j :: 0 <= i < j < |paths| ==> !EqFold(paths[i], paths[j])
  }

  lemma {:induction false} SpellingsDiffer(named: seq<string>)
    ensures Distinct(FirstSpellings(named))
  {
    if named != [] {
      SpellingsDiffer(named[..|named| - 1]);
    }
  }

  lemma {:induction false} EveryNameIsSeen(named: seq<string>)
    ensures forall p :: p in named ==> AlreadySeen(FirstSpellings(named), p)
  {
    if named != [] {
      var fewer, last := named[..|named| - 1], named[|named| - 1];
      var paths, now := FirstSpellings(fewer), FirstSpellings(named);
      EveryNameIsSeen(fewer);
      assert now == paths || now[|paths|] == last;
      forall p | AlreadySeen(paths, p) ensures AlreadySeen(now, p) {
        var i :| 0 <= i < |paths| && EqFold(paths[i], p);
        assert now[i] == paths[i];
      }
    }
  }

  lemma {:induction false} SpellingsAreFirst(named: seq<string>)
    ensures forall p :: p in FirstSpellings(named) ==> FirstNamed(named, p)
  {
    if named != [] {
      var fewer, last := named[..|named| - 1], named[|named| - 1];
      var paths := FirstSpellings(fewer);
      SpellingsAreFirst(fewer);
      EveryNameIsSeen(fewer);
      forall p | p in paths ensures FirstNamed(named, p) {
        StillFirst(fewer, named, p);
      }
      if !AlreadySeen(paths, last) {
        FirstAtLast(fewer, named, paths);
      }
    }
  }

  lemma StillFirst(fewer: seq<string>, named: seq<string>, p: string)
    requires fewer <= named && FirstNamed(fewer, p)
    ensures FirstNamed(named, p)
  {
    var k :| 0 <= k < |fewer| && fewer[k] == p && forall j :: 0 <= j < k ==> !EqFold(fewer[j], p);
    assert named[k] == p;
  }

  lemma FirstAtLast(fewer: seq<string>, named: seq<string>, paths: seq<string>)
    requires fewer <= named && |named| == |fewer| + 1
    requires forall p :: p in fewer ==> AlreadySeen(paths, p)
    requires !AlreadySeen(paths, named[|fewer|])
    ensures FirstNamed(named, named[|fewer|])
  {
    forall j | 0 <= j < |fewer| ensures !EqFold(named[j], named[|fewer|]) {
      assert named[j] == fewer[j] && fewer[j] in fewer;
      var i :| 0 <= i < |paths| && EqFold(paths[i], named[j]);
      assert !EqFold(paths[i], named[|fewer|]);
    }
  }

  /** The loop over the folders of `steam_library_paths`. */
  method DistinctPaths(folders: seq<Entry>) returns (paths: seq<string>)
    ensures paths == FirstSpellings(NamedLibraries(folders))
  {
    paths := [];
    for n := 0 to |folders|
      invariant paths == FirstSpellings(NamedLibraries(folders[..n]))
    {
      var path := NamedPath(folders[n]);
      ghost var named := NamedLibraries(folders[..n]);
      assert folders[..n + 1][..n] == folders[..n];
      if path.Some? {
        assert (named + [path.value])[..|named|] == named;
        if !AlreadySeen(paths, path.value) {
          paths := paths + [path.value];
        }
      } else {
        assert named + [] == named;
      }
    }
    assert folders[..|folders|] == folders;
  }

  /** `steam_library_paths`. */
  method SteamLibraryPaths(vdf: string) returns (r: Result<seq<string>, ParseError>)
    ensures match Document(vdf)
            case Err(error) => r == Err(error)
            case Ok(document) =>
              match LibraryFolders(document)
              case None => r == Err(NoLibraryFolders)
              case Some(folders) => r == Ok(FirstSpellings(NamedLibraries(folders)))
  {
    var document := ParseDocument(vdf);
    if document.Err? {
      return Err(document.error);
    }
    var folders := LibraryFolders(document.value);
    if folders.None? {
      return Err(NoLibraryFolders);
    }
    var paths := DistinctPaths(folders.value);
    r := Ok(paths);
  }
}
