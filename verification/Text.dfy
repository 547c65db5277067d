// Text as the source handles it: sequences of Unicode characters, ASCII-only
// letter case, Rust's white space, and splitting on a separator.
module Text {

  function Lower(c: char): char {
    if 'A' <= c <= 'Z' then (c as int + 32) as char else c
  }

  function Upper(c: char): char {
    if 'a' <= c <= 'z' then (c as int - 32) as char else c
  }

  /** `to_ascii_lowercase`. */
  function LowerAll(s: string): (t: string)
    ensures |t| == |s|
  {
    if s == "" then "" else [Lower(s[0])] + LowerAll(s[1..])
  }

  lemma {:induction false} LowerAllAt(s: string)
    ensures forall i :: 0 <= i < |s| ==> LowerAll(s)[i] == Lower(s[i])
  {
    if s != "" {
      LowerAllAt(s[1..]);
    }
  }

  lemma LowerConcat(a: string, b: string)
    ensures LowerAll(a + b) == LowerAll(a) + LowerAll(b)
  {
    LowerAllAt(a);
    LowerAllAt(b);
    LowerAllAt(a + b);
  }

  /** `to_ascii_uppercase`. */
  function UpperAll(s: string): (t: string)
    ensures |t| == |s|
  {
    if s == "" then "" else [Upper(s[0])] + UpperAll(s[1..])
  }

  lemma {:induction false} UpperAllAt(s: string)
    ensures forall i :: 0 <= i < |s| ==> UpperAll(s)[i] == Upper(s[i])
  {
    if s != "" {
      UpperAllAt(s[1..]);
    }
  }

  lemma Uppers(s: string, t: string)
    requires |s| == |t| && forall i :: 0 <= i < |s| ==> Upper(s[i]) == t[i]
    ensures UpperAll(s) == t
  {
    UpperAllAt(s);
  }

  /** `eq_ignore_ascii_case`. */
  predicate EqFold(a: string, b: string) {
    LowerAll(a) == LowerAll(b)
  }

  lemma FoldsItself(s: string)
    ensures EqFold(s, s)
  {
  }

  lemma CaseOfCase(s: string)
    ensures UpperAll(LowerAll(s)) == UpperAll(s)
    ensures LowerAll(UpperAll(s)) == LowerAll(s)
    ensures UpperAll(UpperAll(s)) == UpperAll(s)
    ensures LowerAll(LowerAll(s)) == LowerAll(s)
  {
    LowerAllAt(s);
    UpperAllAt(s);
    LowerAllAt(LowerAll(s));
    LowerAllAt(UpperAll(s));
    UpperAllAt(LowerAll(s));
    UpperAllAt(UpperAll(s));
  }

  /** Lower and upper case forget the same differences. */
  lemma EqFoldIsUpper(a: string, b: string)
    ensures EqFold(a, b) <==> UpperAll(a) == UpperAll(b)
  {
    CaseOfCase(a);
    CaseOfCase(b);
  }

  lemma FoldIndex(a: string, b: string, i: nat)
    requires EqFold(a, b)
    ensures |a| == |b| && (i < |a| ==> Lower(a[i]) == Lower(b[i]))
  {
    assert |LowerAll(a)| == |LowerAll(b)|;
    LowerAllAt(a);
    LowerAllAt(b);
    if i < |a| {
      assert LowerAll(a)[i] == LowerAll(b)[i];
    }
  }

  /** `char::is_whitespace`: the Unicode property White_Space. */
  predicate IsWhitespace(c: char) {
    var n := c as int;
    || 0x09 <= n <= 0x0d || n == 0x20 || n == 0x85 || n == 0xa0 || n == 0x1680
    || 0x2000 <= n <= 0x200a || n == 0x2028 || n == 0x2029 || n == 0x202f || n == 0x205f || n == 0x3000
  }

  function TrimStart(s: string): string {
    if s != "" && IsWhitespace(s[0]) then TrimStart(s[1..]) else s
  }

  function TrimEnd(s: string): (t: string)
    ensures t <= s
    ensures t == "" || !IsWhitespace(t[|t| - 1])
  {
    if s != "" && IsWhitespace(s[|s| - 1]) then TrimEnd(s[..|s| - 1]) else s
  }

  /** `str::trim`. */
  function Trim(s: string): string {
    TrimEnd(TrimStart(s))
  }

  lemma NothingToTrim(s: string)
    requires s != "" && !IsWhitespace(s[0]) && !IsWhitespace(s[|s| - 1])
    ensures Trim(s) == s
  {
  }

  /** `trim_start_matches` and `trim_end_matches` of one character. */
  function WithoutLeading(s: string, c: char): string {
    if s != "" && s[0] == c then WithoutLeading(s[1..], c) else s
  }

  function WithoutTrailing(s: string, c: char): (t: string)
    ensures t == "" || t[|t| - 1] != c
    ensures t <= s
  {
    if s != "" && s[|s| - 1] == c then WithoutTrailing(s[..|s| - 1], c) else s
  }

  predicate IsDigit(c: char) {
    '0' <= c <= '9'
  }

  predicate IsLetter(c: char) {
    'A' <= Upper(c) <= 'Z'
  }

  predicate AllDigits(s: string) {
    forall c :: c in s ==> IsDigit(c)
  }

  /** Every `/` as `\`. */
  function Unified(s: string): (t: string)
    ensures |t| == |s|
  {
    if s == "" then "" else [if s[0] == '/' then '\\' else s[0]] + Unified(s[1..])
  }

  lemma {:induction false} UnifiedAt(s: string)
    ensures forall i :: 0 <= i < |s| ==> Unified(s)[i] == if s[i] == '/' then '\\' else s[i]
  {
    if s != "" {
      UnifiedAt(s[1..]);
    }
  }

  /** `str::split`: the pieces between separators, never none. */
  function Split(s: string, separator: char): (parts: seq<string>)
    ensures parts != []
  {
    if s == "" then [""]
    else
      var rest := Split(s[1..], separator);
      if s[0] == separator then [""] + rest else [[s[0]] + rest[0]] + rest[1..]
  }

  function Join(parts: seq<string>, separator: char): string {
    if parts == [] then "" else if |parts| == 1 then parts[0] else parts[0] + [separator] + Join(parts[1..], separator)
  }

  lemma {:induction false} SplitAt(a: string, b: string, separator: char)
    ensures Split(a + [separator] + b, separator) == Split(a, separator) + Split(b, separator)
  {
    var s := a + [separator] + b;
    if a == "" {
      assert s[1..] == b;
    } else {
      assert s[1..] == a[1..] + [separator] + b;
      SplitAt(a[1..], b, separator);
    }
  }

  lemma {:induction false} SplitPiece(s: string, separator: char)
    requires separator !in s
    ensures Split(s, separator) == [s]
  {
    if s != "" {
      SplitPiece(s[1..], separator);
      assert [s[0]] + s[1..] == s;
    }
  }

  lemma {:induction false} SplitPieces(s: string, separator: char)
    ensures forall p :: p in Split(s, separator) ==> separator !in p
  {
    if s != "" {
      SplitPieces(s[1..], separator);
      var rest := Split(s[1..], separator);
      assert rest[0] in rest;
    }
  }

  /** Pieces joined fall apart again, if none holds the separator. */
  lemma {:induction false} SplitJoin(parts: seq<string>, separator: char)
    requires parts != [] && forall p :: p in parts ==> separator !in p
    ensures Split(Join(parts, separator), separator) == parts
  {
    SplitPiece(parts[0], separator);
    if |parts| > 1 {
      SplitJoin(parts[1..], separator);
      SplitAt(parts[0], Join(parts[1..], separator), separator);
      assert parts == [parts[0]] + parts[1..];
    }
  }

  /** The last index of a character, or -1: `rfind`. */
  function LastIndexOf(s: string, c: char): (i: int)
    ensures -1 <= i < |s|
    ensures i >= 0 ==> s[i] == c
    ensures forall j :: i < j < |s| ==> s[j] != c
  {
    if s == "" then -1
    else if s[|s| - 1] == c then |s| - 1
    else LastIndexOf(s[..|s| - 1], c)
  }

  /** The first index of a character, or the length: `find`. */
  function IndexOf(s: string, c: char): (i: nat)
    ensures i <= |s|
    ensures i < |s| ==> s[i] == c
    ensures forall j :: 0 <= j < i ==> s[j] != c
  {
    if s == "" || s[0] == c then 0 else 1 + IndexOf(s[1..], c)
  }

  lemma IndexOfFinds(s: string, c: char)
    ensures IndexOf(s, c) < |s| <==> c in s
  {
    if c in s {
      var j :| 0 <= j < |s| && s[j] == c;
    }
  }

  predicate EndsWith(s: string, suffix: string) {
    |suffix| <= |s| && s[|s| - |suffix|..] == suffix
  }

  predicate OccursAt(s: string, part: string, i: nat) {
    i <= |s| && part <= s[i..]
  }

  /** The first index at which one text occurs in another, or -1. */
  function Find(s: string, part: string): (i: int)
    ensures -1 <= i <= |s|
    ensures i >= 0 ==> OccursAt(s, part, i) && forall j :: 0 <= j < i ==> !OccursAt(s, part, j)
    ensures i < 0 ==> forall j :: 0 <= j ==> !OccursAt(s, part, j)
  {
    if part <= s then assert s[0..] == s; 0
    else if s == "" then -1
    else
      var i := Find(s[1..], part);
      assert s[0..] == s;
      assert forall j :: j > 0 ==> (OccursAt(s, part, j) <==> OccursAt(s[1..], part, j - 1)) by {
        forall j | j > 0 ensures OccursAt(s, part, j) <==> OccursAt(s[1..], part, j - 1) {
          assert j <= |s| ==> s[j..] == s[1..][j - 1..];
        }
      }
      assert i >= 0 ==> OccursAt(s[1..], part, i + 1 - 1);
      if i < 0 then -1 else i + 1
  }

  function Digit(d: nat): char
    requires d < 10
  {
    '0' + d as char
  }

  /** A number as text: `to_string`. */
  function Decimal(n: nat): (s: string)
    ensures s != ""
  {
    if n < 10 then [Digit(n)] else Decimal(n / 10) + [Digit(n % 10)]
  }

  /** Parts of a part, and parts joined another way. */
  lemma DropDrop(s: string, i: nat, j: nat)
    requires i + j <= |s|
    ensures s[i..][j..] == s[i + j..] && s[i..][..j] == s[i..i + j]
  {
  }

  lemma Regrouped(a: string, b: string, c: string, d: string)
    ensures a + (b + (c + d)) == ((a + b) + c) + d
  {
  }

  // ----- letters and white space -----

  const CAPITALS: string := "ABCDEFGHIJKLMNOPQRSTUVWXYZ"
  const SMALL: string := "abcdefghijklmnopqrstuvwxyz"

  lemma LettersInOrder(i: nat)
    requires i < 26
    ensures |CAPITALS| == |SMALL| == 26
    ensures CAPITALS[i] as int == 'A' as int + i && SMALL[i] as int == 'a' as int + i
  {
  }

  /** The 26 letters have a capital and a small form, and nothing else has case. */
  lemma CaseIs(c: char)
    ensures forall i :: 0 <= i < 26 && (c == CAPITALS[i] || c == SMALL[i]) ==>
              Lower(c) == SMALL[i] && Upper(c) == CAPITALS[i] && IsLetter(c)
    ensures c !in CAPITALS && c !in SMALL ==> Lower(c) == c && Upper(c) == c && !IsLetter(c)
  {
    forall i | 0 <= i < 26 ensures CAPITALS[i] as int == 'A' as int + i && SMALL[i] as int == 'a' as int + i {
      LettersInOrder(i);
    }
    if 'A' <= c <= 'Z' {
      LettersInOrder(c as int - 'A' as int);
      assert CAPITALS[c as int - 'A' as int] == c;
    }
    if 'a' <= c <= 'z' {
      LettersInOrder(c as int - 'a' as int);
      assert SMALL[c as int - 'a' as int] == c;
    }
    hide CAPITALS; hide SMALL;
  }

  const BLANKS: seq<int> :=
    [ 0x09, 0x0a, 0x0b, 0x0c, 0x0d, 0x20, 0x85, 0xa0, 0x1680, 0x2000, 0x2001, 0x2002, 0x2003, 0x2004, 0x2005, 0x2006, 0x2007,
      0x2008, 0x2009, 0x200a, 0x2028, 0x2029, 0x202f, 0x205f, 0x3000 ]

  /** The characters of the Unicode property White_Space, one by one. */
  lemma BlanksAre(c: char)
    ensures IsWhitespace(c) <==> c as int in BLANKS
  {
  }
}
