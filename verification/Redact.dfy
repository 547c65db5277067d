// The scanning rewriters of tools/observe/src/redact.rs that remove account
// names and account identifiers from text.
module Redact {
  import opened Prelude
  import opened Text

  // ----- profile directories -----

  const USERS: string := "\\users\\"
  const USER_PLACEHOLDER: string := "%USER%"

  /** `\users\`, in any case, begins at an index. */
  predicate UsersAt(s: string, i: nat) {
    i + |USERS| <= |s| && forall j :: i <= j < i + |USERS| ==> Lower(s[j]) == USERS[j - i]
  }

  /** The first place it does, or the end. */
  function FindUsers(s: string): (i: nat)
    ensures i <= |s| && (i < |s| ==> UsersAt(s, i))
    ensures forall j :: 0 <= j < i ==> !UsersAt(s, j)
  {
    if s == "" || UsersAt(s, 0) then 0
    else
      var i := FindUsers(s[1..]);
      assert forall j :: 0 < j && UsersAt(s, j) ==> UsersAt(s[1..], j - 1);
      assert UsersAt(s[1..], i) ==> UsersAt(s, i + 1);
      i + 1
  }

  /** What precedes the next separator. */
  function Component(s: string): string {
    s[..IndexOf(s, '\\')]
  }

  predicate IsShared(name: string) {
    EqFold(name, "public") || EqFold(name, "default") || EqFold(name, "all users") || EqFold(name, "default user")
  }

  /** A name that identifies nobody. */
  predicate IsAnonymous(name: string) {
    IsShared(name) || name == USER_PLACEHOLDER || name == ""
  }

  function Masked(name: string): string {
    if IsAnonymous(name) then name else USER_PLACEHOLDER
  }

  /** The first profile a text names: up to and with `\users\`, the name below
      it, and what follows. */
  datatype Cut = NoProfile | Profile(head: string, name: string, rest: string)

  function FirstProfile(s: string): (cut: Cut)
    ensures cut.Profile? ==> |cut.rest| < |s|
  {
    var i := FindUsers(s);
    if i == |s| then NoProfile
    else
      var after := s[i + |USERS|..];
      var end := IndexOf(after, '\\');
      Profile(s[..i + |USERS|], after[..end], after[end..])
  }

  /** The text with every profile's name masked. */
  function Anonymised(s: string): string
    decreases |s|
  {
    match FirstProfile(s)
    case NoProfile => s
    case Profile(head, name, rest) => head + (Masked(name) + Anonymised(rest))
  }

  /** Some name was replaced. */
  predicate Identifies(s: string)
    decreases |s|
  {
    match FirstProfile(s)
    case NoProfile => false
    case Profile(_, name, rest) => !IsAnonymous(name) || Identifies(rest)
  }

  /** `replace_user_profiles`: one cursor over the text. */
  method ReplaceUserProfiles(text: string) returns (r: Option<string>)
    ensures r == if Identifies(text) then Some(Anonymised(text)) else None
  {
    hide IsShared; hide UsersAt; hide FirstProfile; hide FindUsers; hide IndexOf; hide Anonymised; hide Identifies;
    var result, cursor, hit := "", 0, false;
    var found := FindUsers(text);
    assert text[0..] == text;
    while found < |text[cursor..]|
      invariant cursor <= |text| && found == FindUsers(text[cursor..])
      invariant Anonymised(text) == result + Anonymised(text[cursor..])
      invariant Identifies(text) == (hit || Identifies(text[cursor..]))
      decreases |text| - cursor
    {
      OneName(text, cursor);
      OneStep(text[cursor..]);
      var start := cursor + found + |USERS|;
      var end := start + IndexOf(text[start..], '\\');
      var name := text[start..end];
      Regrouped(result, text[cursor..start], Masked(name), Anonymised(text[end..]));
      result := result + text[cursor..start];
      if IsShared(name) || name == USER_PLACEHOLDER || name == "" {
        result := result + name;
      } else {
        result := result + USER_PLACEHOLDER;
        hit := true;
      }
      cursor := end;
      found := FindUsers(text[cursor..]);
    }
    NoneLeft(text[cursor..]);
    result := result + text[cursor..];
    r := if hit then Some(result) else None;
  }

  lemma OneStep(s: string)
    requires FirstProfile(s).Profile?
    ensures var cut := FirstProfile(s);
            && Anonymised(s) == cut.head + (Masked(cut.name) + Anonymised(cut.rest))
            && (Identifies(s) <==> !IsAnonymous(cut.name) || Identifies(cut.rest))
  {
    hide FirstProfile; hide IsAnonymous; hide Masked;
  }

  lemma NoneLeft(s: string)
    requires FindUsers(s) == |s|
    ensures Anonymised(s) == s && !Identifies(s)
  {
  }

  lemma FoundFits(s: string)
    requires FindUsers(s) < |s|
    ensures FindUsers(s) + |USERS| <= |s|
  {
    assert UsersAt(s, FindUsers(s));
  }

  /** Where the cursor cuts the text after it. */
  lemma OneName(text: string, cursor: nat)
    requires cursor <= |text| && FindUsers(text[cursor..]) < |text[cursor..]|
    ensures var start := cursor + FindUsers(text[cursor..]) + |USERS|;
            && start <= |text|
            && var end := start + IndexOf(text[start..], '\\');
               FirstProfile(text[cursor..]) == Profile(text[cursor..start], text[start..end], text[end..])
  {
    hide UsersAt; hide IndexOf; hide FindUsers;
    var rest := text[cursor..];
    FoundFits(rest);
    var start := cursor + FindUsers(rest) + |USERS|;
    DropDrop(text, cursor, FindUsers(rest) + |USERS|);
    DropDrop(text, start, IndexOf(text[start..], '\\'));
  }

  /** Below every `\users\` there is no person's name. */
  ghost predicate IsAnonymised(s: string) {
    forall i :: 0 <= i && UsersAt(s, i) ==> IsAnonymous(Component(s[i + |USERS|..]))
  }

  lemma ComponentIsName(name: string, rest: string)
    requires '\\' !in name && (rest == "" || rest[0] == '\\')
    ensures Component(name + rest) == name
  {
    var s := name + rest;
    assert forall j :: 0 <= j < |name| ==> s[j] == name[j] && name[j] in name;
    assert s[..|name|] == name;
  }

  lemma AnonymousIsNotUsers(name: string)
    requires IsAnonymous(name)
    ensures |name| != |"users"|
  {
    hide LowerAll;
    assert forall other: string :: EqFold(name, other) ==> |LowerAll(name)| == |LowerAll(other)|;
  }

  /** Text that begins where a name ended. */
  predicate BeginsAtSeparator(s: string) {
    s == "" || s[0] == '\\'
  }

  lemma UsersInside(s: string, at: nat, i: nat)
    requires at < i < at + |USERS| - 1
    ensures UsersAt(s, at) ==> s[i] != '\\'
  {
    assert USERS[i - at] != '\\';
  }

  /** The separator that ends one `\users\` does not begin another, unless the
      name between is `users`. */
  lemma NameAfterSeparator(head: string, name: string, rest: string)
    requires head != "" && '\\' !in name && |name| != |"users"| && BeginsAtSeparator(rest)
    ensures !UsersAt(head + (name + rest), |head| - 1)
  {
    var s, at := head + (name + rest), |head| - 1;
    if |name| < 5 {
      UsersInside(s, at, at + 1 + |name|);
    } else if |name| > 5 {
      UsersEnds(s, at);
      assert at + 6 < |s| ==> s[at + 6] == name[5] && name[5] in name;
    }
  }

  lemma UsersEnds(s: string, at: nat)
    ensures UsersAt(s, at) ==> at + |USERS| <= |s| && s[at + |USERS| - 1] == '\\' && s[at] == '\\'
  {
    assert UsersAt(s, at) ==> Lower(s[at + 6]) == USERS[6] && Lower(s[at]) == USERS[0];
  }

  /** Where `\users\` can begin in a head that ends with the first one, a name
      that is no person's, and what follows. */
  lemma UsersInParts(head: string, name: string, rest: string, i: nat)
    requires |USERS| <= |head| && FindUsers(head) == |head| - |USERS|
    requires '\\' !in name && |name| != |"users"| && BeginsAtSeparator(rest)
    requires UsersAt(head + (name + rest), i)
    ensures i == |head| - |USERS| || (i >= |head| + |name| && UsersAt(rest, i - |head| - |name|))
  {
    var s, n := head + (name + rest), |head| + |name|;
    UsersEnds(s, i);
    hide UsersAt; hide FindUsers;
    if i < |head| - |USERS| {
      UsersInHead(head, name + rest, i);
    } else if |head| - |USERS| < i < |head| - 1 {
      UsersInside(head, |head| - |USERS|, i);
    } else if i == |head| - 1 {
      NameAfterSeparator(head, name, rest);
    } else if |head| <= i < n {
      NotInName(head, name, rest, i);
    } else if i >= n {
      UsersInTail(head + name, rest, i);
      assert (head + name) + rest == s;
    }
  }

  lemma NotInName(head: string, name: string, rest: string, i: nat)
    requires '\\' !in name && |head| <= i < |head| + |name|
    ensures (head + (name + rest))[i] != '\\'
  {
    assert name[i - |head|] in name;
  }

  lemma UsersInHead(head: string, tail: string, i: nat)
    requires i + |USERS| <= |head|
    ensures UsersAt(head + tail, i) <==> UsersAt(head, i)
  {
    assert forall j :: i <= j < i + |USERS| ==> (head + tail)[j] == head[j];
  }

  lemma UsersInTail(head: string, tail: string, i: nat)
    requires i >= |head|
    ensures UsersAt(head + tail, i) <==> UsersAt(tail, i - |head|)
  {
    var s, n := head + tail, |head|;
    if i + |USERS| <= |s| {
      assert forall j :: i <= j < i + |USERS| ==> s[j] == tail[j - n];
      assert forall j :: i - n <= j < i - n + |USERS| ==> s[j + n] == tail[j];
    }
  }

  lemma FoundUsers(s: string)
    requires FirstProfile(s).Profile?
    ensures FindUsers(s) + |USERS| <= |s| && UsersAt(s, FindUsers(s))
  {
  }

  lemma NameEnds(after: string)
    ensures var end := IndexOf(after, '\\');
            after == after[..end] + after[end..] && '\\' !in after[..end] && BeginsAtSeparator(after[end..])
  {
    var end := IndexOf(after, '\\');
    assert forall j :: 0 <= j < end ==> after[..end][j] == after[j];
  }

  lemma CutParts(s: string)
    requires FirstProfile(s).Profile?
    ensures var cut := FirstProfile(s);
            && s == cut.head + (cut.name + cut.rest)
            && |USERS| <= |cut.head| && FindUsers(cut.head) == |cut.head| - |USERS|
            && '\\' !in cut.name && BeginsAtSeparator(cut.rest)
  {
    var cut, i := FirstProfile(s), FindUsers(s);
    var after := s[i + |USERS|..];
    FoundUsers(s);
    hide FindUsers; hide UsersAt;
    CutInTwo(s, i + |USERS|);
    NameEnds(after);
    FirstInHead(cut.head, after, i);
  }

  lemma CutInTwo(s: string, i: nat)
    requires i <= |s|
    ensures s == s[..i] + s[i..]
  {
  }

  lemma FirstInHead(head: string, tail: string, i: nat)
    requires FindUsers(head + tail) == i && i + |USERS| == |head| && UsersAt(head + tail, i)
    ensures FindUsers(head) == i
  {
    UsersInHead(head, tail, i);
    var m := FindUsers(head);
    UsersInHead(head, tail, m) by { assert UsersAt(head, m); }
  }

  lemma MaskedIsAnonymous(name: string)
    requires '\\' !in name
    ensures '\\' !in Masked(name) && IsAnonymous(Masked(name)) && |Masked(name)| != |"users"|
  {
    hide IsShared; hide LowerAll;
    AnonymousIsNotUsers(Masked(name));
    NoSeparatorInPlaceholder();
  }

  lemma NoSeparatorInPlaceholder()
    ensures '\\' !in USER_PLACEHOLDER
  {
  }

  /** What follows a head and a name, and the component it begins with. */
  lemma Following(head: string, name: string, rest: string, i: nat)
    requires '\\' !in name && BeginsAtSeparator(rest)
    ensures Component((head + (name + rest))[|head|..]) == name
    ensures |head| + |name| <= i <= |head + (name + rest)| ==> (head + (name + rest))[i..] == rest[i - |head| - |name|..]
  {
    assert (head + (name + rest))[|head|..] == name + rest;
    ComponentIsName(name, rest);
  }

  /** After the pass there is no person's name below any `\users\`. */
  lemma {:induction false} AnonymisedIsComplete(s: string)
    ensures IsAnonymised(Anonymised(s))
    ensures BeginsAtSeparator(s) ==> BeginsAtSeparator(Anonymised(s))
    decreases |s|
  {
    if FirstProfile(s) == NoProfile {
      NoneLeft(s);
    } else {
      var cut := FirstProfile(s);
      CutParts(s);
      OneStep(s);
      AnonymisedIsComplete(cut.rest);
      MaskedIsAnonymous(cut.name);
      MaskedIsComplete(cut.head, Masked(cut.name), Anonymised(cut.rest));
      hide Anonymised; hide FirstProfile; hide Masked; hide IsAnonymised; hide FindUsers; hide IsAnonymous;
    }
  }

  lemma MaskedIsComplete(head: string, name: string, rest: string)
    requires |USERS| <= |head| && FindUsers(head) == |head| - |USERS|
    requires '\\' !in name && IsAnonymous(name) && |name| != |"users"| && BeginsAtSeparator(rest)
    requires IsAnonymised(rest)
    ensures IsAnonymised(head + (name + rest))
  {
    hide IsAnonymous; hide FindUsers;
    var s := head + (name + rest);
    forall i | 0 <= i && UsersAt(s, i) ensures IsAnonymous(Component(s[i + |USERS|..])) {
      UsersInParts(head, name, rest, i);
      Following(head, name, rest, i + |USERS|);
      hide UsersAt; hide Component;
    }
  }

  /** And a text with none is left as it is. */
  lemma {:induction false} CompleteIsFixed(s: string)
    requires IsAnonymised(s)
    ensures Anonymised(s) == s && !Identifies(s)
    decreases |s|
  {
    if FirstProfile(s) == NoProfile {
      NoneLeft(s);
    } else {
      var cut := FirstProfile(s);
      CutParts(s);
      OneStep(s);
      RestIsAnonymised(cut.head, cut.name, cut.rest);
      CompleteIsFixed(cut.rest);
      hide Anonymised; hide Identifies; hide FirstProfile; hide IsAnonymised; hide FindUsers; hide IsAnonymous;
    }
  }

  lemma RestIsAnonymised(head: string, name: string, rest: string)
    requires IsAnonymised(head + (name + rest)) && |USERS| <= |head| && FindUsers(head) == |head| - |USERS|
    requires '\\' !in name && BeginsAtSeparator(rest)
    ensures IsAnonymous(name) && IsAnonymised(rest)
  {
    hide IsAnonymous; hide Component; hide FindUsers;
    assert UsersAt(head, FindUsers(head));
    UsersInHead(head, name + rest, |head| - |USERS|);
    Following(head, name, rest, 0);
    assert IsAnonymous(name);
    assert (head + name) + rest == head + (name + rest);
    forall i | 0 <= i && UsersAt(rest, i) ensures IsAnonymous(Component(rest[i + |USERS|..])) {
      AnonymousAt(head + name, rest, i);
    }
  }

  lemma AnonymousAt(before: string, rest: string, i: nat)
    requires IsAnonymised(before + rest) && UsersAt(rest, i)
    ensures IsAnonymous(Component(rest[i + |USERS|..]))
  {
    hide IsAnonymous; hide Component;
    UsersInTail(before, rest, |before| + i);
    assert (before + rest)[|before| + i + |USERS|..] == rest[i + |USERS|..];
  }

  lemma {:induction false} UnhitIsFixed(s: string)
    requires !Identifies(s)
    ensures Anonymised(s) == s
    decreases |s|
  {
    if FirstProfile(s) == NoProfile {
      NoneLeft(s);
    } else {
      CutParts(s);
      OneStep(s);
      UnhitIsFixed(FirstProfile(s).rest);
      hide Anonymised; hide Identifies; hide FirstProfile; hide FindUsers; hide IsAnonymous;
    }
  }

  /** The pass changes a text exactly when it names a person's profile, leaves
      none, and changes nothing the second time. */
  lemma ProfilePassIsCompleteAndIdempotent(s: string)
    ensures IsAnonymised(Anonymised(s))
    ensures Identifies(s) <==> !IsAnonymised(s)
    ensures Anonymised(Anonymised(s)) == Anonymised(s) && !Identifies(Anonymised(s))
  {
    AnonymisedIsComplete(s);
    CompleteIsFixed(Anonymised(s));
    if IsAnonymised(s) { CompleteIsFixed(s); }
    if !Identifies(s) { UnhitIsFixed(s); }
    hide Anonymised; hide Identifies; hide IsAnonymised;
  }
}
