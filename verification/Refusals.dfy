// What the privacy policy refuses, exactly, in terms of the text it refuses:
// tools/observe/src/policy.rs.
module Refusals {
  import opened Prelude
  import opened Text
  import opened PathLaws
  import opened PathSpellings
  import opened Observed
  import opened Policies
  import opened Keyed

  /** Some part of a text reads, in lower case, as a term. */
  ghost predicate Reads(s: string, term: string) {
    exists a, m, b :: ReadsAt(s, term, a, m, b)
  }

  ghost predicate ReadsAt(s: string, term: string, a: string, m: string, b: string) {
    s == a + (m + b) && LowerAll(m) == term
  }

  lemma HeldIsRead(s: string, term: string)
    ensures Holds(LowerAll(s), term) <==> Reads(s, term)
  {
    if i :| 0 <= i <= |LowerAll(s)| && term <= LowerAll(s)[i..] {
      ReadFrom(s, term, i);
    }
    if a, m, b :| ReadsAt(s, term, a, m, b) {
      LowerConcat(a, m + b);
      LowerConcat(m, b);
      hide LowerAll;
      assert LowerAll(s)[|LowerAll(a)|..] == term + LowerAll(b);
    }
  }

  lemma ReadFrom(s: string, term: string, i: nat)
    requires i <= |s| && term <= LowerAll(s)[i..]
    ensures Reads(s, term)
  {
    LowerPrefix(s, i);
    var rest := s[i..];
    assert term <= LowerAll(rest);
    hide LowerAll; hide Reads;
    ReadFirst(rest, term);
    Rejoined(s, i, |term|);
    ReadAt(s, term, s[..i], rest[..|term|], rest[|term|..]);
  }

  lemma ReadAt(s: string, term: string, a: string, m: string, b: string)
    requires s == a + (m + b) && LowerAll(m) == term
    ensures Reads(s, term)
  {
    assert ReadsAt(s, term, a, m, b);
  }

  lemma Rejoined(s: string, i: nat, n: nat)
    requires i + n <= |s|
    ensures s == s[..i] + (s[i..][..n] + s[i..][n..])
  {
  }

  lemma ReadFirst(s: string, term: string)
    requires term <= LowerAll(s)
    ensures |term| <= |s| && LowerAll(s[..|term|]) == term
  {
    hide LowerAll;
    PrefixIs(LowerAll(s), term);
    LowerPrefix(s, |term|);
  }

  lemma PrefixIs(s: string, term: string)
    requires term <= s
    ensures |term| <= |s| && s[..|term|] == term
  {
  }

  ghost predicate ReadsAny(s: string, terms: seq<string>) {
    exists term :: term in terms && Reads(s, term)
  }

  lemma HeldAnyIsRead(s: string, terms: seq<string>)
    ensures HoldsAny(LowerAll(s), terms) <==> ReadsAny(s, terms)
  {
    hide Holds; hide Reads; hide LowerAll;
    forall term | term in terms ensures Holds(LowerAll(s), term) <==> Reads(s, term) {
      HeldIsRead(s, term);
    }
  }

  lemma LowerBetween(key: string)
    ensures LowerAll("\\" + key + "\\") == "\\" + LowerAll(key) + "\\"
    ensures LowerAll(key + "\\") == LowerAll(key) + "\\"
  {
    LowerConcat("\\" + key, "\\");
    LowerConcat("\\", key);
    LowerConcat(key, "\\");
    assert LowerAll("\\") == "\\";
  }

  /** A key is excluded exactly when, between separators, it reads as some key
      fragment, and a path, with its separators alike and one at its end, as some
      path fragment. */
  lemma ExcludedExactly(policy: Policy, text: string)
    ensures ExcludedKey(policy, text) <==> ReadsAny("\\" + text + "\\", policy.keyFragments)
    ensures ExcludedPath(policy, text) <==> ReadsAny(Unified(text) + "\\", policy.pathFragments)
  {
    LowerBetween(text);
    LowerBetween(Unified(text));
    LowerUnified(text);
    hide LowerAll; hide Unified; hide ReadsAny; hide HoldsAny;
    HeldAnyIsRead("\\" + text + "\\", policy.keyFragments);
    HeldAnyIsRead(Unified(text) + "\\", policy.pathFragments);
  }

  /** A shell property list, which names properties and holds none. */
  predicate IsSchema(data: string) {
    |data| >= 5 && EqFold(data[..5], "prop:")
  }

  lemma SchemaIs(data: string)
    ensures "prop:" <= LowerAll(data) <==> IsSchema(data)
  {
    assert LowerAll("prop:") == "prop:";
    if |data| >= 5 {
      LowerPrefix(data, 5);
    }
  }

  /** A value is refused exactly when its name reads as a hardware term, when its
      data does and is no property list, or when its name is a personal one. */
  lemma RefusedExactly(policy: Policy, value: RegistryValue)
    ensures Refused(policy, value) <==>
              || ReadsAny(value.name, policy.terms)
              || (!IsSchema(value.data) && ReadsAny(value.data, policy.terms))
              || exists known :: known in policy.personalNames && EqFold(known, Trim(value.name))
  {
    SchemaIs(value.data);
    HeldAnyIsRead(value.name, policy.terms);
    HeldAnyIsRead(value.data, policy.terms);
    hide LowerAll; hide HoldsAny; hide ReadsAny; hide IsSchema; hide Trim;
  }

  // ----- refusals -----

  lemma StillOccurs(s: string, more: string, part: string, i: nat)
    requires OccursAt(s, part, i)
    ensures OccursAt(s + more, part, i)
  {
    assert (s + more)[i..] == s[i..] + more;
  }

  lemma OccursInFront(s: string, part: string, i: nat)
    requires s != "" && OccursAt(s, part, i) && i + |part| < |s|
    ensures OccursAt(s[..|s| - 1], part, i)
  {
    var n := |s| - 1;
    assert s[i..][..|part|] == part;
    assert s[..n][i..] == s[i..][..n - i];
  }

  lemma OccursWithin(s: string, part: string, i: nat)
    requires OccursAt(s, part, i)
    ensures i + |part| <= |s|
    ensures i + |part| == |s| ==> s[|s| - |part|..] == part
  {
  }

  lemma EndOccurs(s: string, part: string)
    requires |part| <= |s| && s[|s| - |part|..] == part
    ensures OccursAt(s, part, |s| - |part|)
  {
  }

  lemma AlsoWithLast(s: string, part: string, i: nat)
    requires s != "" && OccursAt(s[..|s| - 1], part, i)
    ensures OccursAt(s, part, i)
  {
    StillOccurs(s[..|s| - 1], [s[|s| - 1]], part, i);
    assert s == s[..|s| - 1] + [s[|s| - 1]];
  }

  lemma {:induction false} LastCutIs(s: string, part: string, i: nat)
    requires part != "" && OccursAt(s, part, i) && forall j :: i < j ==> !OccursAt(s, part, j)
    ensures LastCut(s, part) == i
    decreases |s|
  {
    OccursWithin(s, part, i);
    hide OccursAt;
    if s[|s| - |part|..] == part {
      EndOccurs(s, part);
    } else {
      var shorter := s[..|s| - 1];
      OccursInFront(s, part, i);
      forall j | i < j ensures !OccursAt(shorter, part, j) {
        if OccursAt(shorter, part, j) {
          AlsoWithLast(s, part, j);
        }
      }
      LastCutIs(shorter, part, i);
    }
  }

  const VIEW: string := " [view "
  const VALUE: string := " :: "

  lemma ViewIsCut(name: string, view: string)
    requires '[' !in view
    ensures LastCut(name + (VIEW + view), VIEW) == |name|
  {
    var s := name + (VIEW + view);
    assert s[|name|..] == VIEW + view;
    assert OccursAt(s, VIEW, |name|);
    forall j | |name| < j ensures !OccursAt(s, VIEW, j) {
      NoLaterView(name, view, j);
    }
    hide OccursAt;
    LastCutIs(s, VIEW, |name|);
  }

  lemma NoLaterView(name: string, view: string, j: nat)
    requires '[' !in view && |name| < j
    ensures !OccursAt(name + (VIEW + view), VIEW, j)
  {
    var s := name + (VIEW + view);
    if OccursAt(s, VIEW, j) {
      SecondOf(s, VIEW, j);
      NoBracket(name, view, j + 1);
    }
  }

  lemma SecondOf(s: string, part: string, j: nat)
    requires OccursAt(s, part, j) && |part| > 1
    ensures j + 1 < |s| && s[j + 1] == part[1]
  {
    assert s[j..][1] == s[j + 1];
  }

  lemma NoBracket(name: string, view: string, j: nat)
    requires '[' !in view && |name| + 1 < j < |name + (VIEW + view)|
    ensures (name + (VIEW + view))[j] != '['
  {
    var s, k := name + (VIEW + view), j - |name|;
    if k < |VIEW| {
      assert s[j] == VIEW[k];
    } else {
      assert s[j] == view[k - |VIEW|] && view[k - |VIEW|] in view;
    }
  }

  lemma FindIs(s: string, part: string, i: nat)
    requires OccursAt(s, part, i) && forall j :: 0 <= j < i ==> !OccursAt(s, part, j)
    ensures Find(s, part) == i
  {
  }

  /** A refused key is named by what stands before its view, and a refused value
      by the key before it: what the privacy policy judges a refusal by. */
  lemma RefusedKeyIsNamed(key: string, name: string, view: string)
    requires '[' !in view && forall j :: 0 <= j < |key| ==> !OccursAt(key + VALUE, VALUE, j)
    ensures DeniedKey(key + VALUE + name + (VIEW + view)) == key
    ensures DeniedKey(key + (VIEW + view)) == key
  {
    var whole := key + VALUE + name;
    ViewIsCut(whole, view);
    ViewIsCut(key, view);
    assert (whole + (VIEW + view))[..|whole|] == whole && (key + (VIEW + view))[..|key|] == key;
    ValueIsCut(key, name);
    NoValue(key);
    hide LastCut; hide Find;
    assert whole[..|key|] == key;
  }

  lemma ValueIsCut(key: string, name: string)
    requires forall j :: 0 <= j < |key| ==> !OccursAt(key + VALUE, VALUE, j)
    ensures Find(key + VALUE + name, VALUE) == |key|
  {
    var whole := key + VALUE + name;
    assert whole[|key|..] == VALUE + name;
    forall j | 0 <= j < |key| ensures !OccursAt(whole, VALUE, j) {
      if OccursAt(whole, VALUE, j) {
        OccursInStart(key + VALUE, name, VALUE, j);
      }
    }
    FindIs(whole, VALUE, |key|);
  }

  lemma NoValue(key: string)
    requires forall j :: 0 <= j < |key| ==> !OccursAt(key + VALUE, VALUE, j)
    ensures Find(key, VALUE) < 0
  {
    var at := Find(key, VALUE);
    if at >= 0 {
      OccursWithin(key, VALUE, at);
      StillOccurs(key, VALUE, VALUE, at);
    }
  }

  lemma OccursInStart(s: string, more: string, part: string, i: nat)
    requires i + |part| <= |s| && OccursAt(s + more, part, i)
    ensures OccursAt(s, part, i)
  {
    assert (s + more)[i..] == s[i..] + more;
    assert s[i..][..|part|] == (s[i..] + more)[..|part|];
  }

  /** A refusal is left out with the key or the path it names, and in no other
      domain. */
  lemma RefusalsAreLeftOut(policy: Policy, key: string, name: string, view: string, path: string, reason: string)
    requires '[' !in view && forall j :: 0 <= j < |key| ==> !OccursAt(key + VALUE, VALUE, j)
    ensures ExcludedDenial(policy, AccessDenied(Registry, key + VALUE + name + (VIEW + view), reason)) <==> ExcludedKey(policy, key)
    ensures ExcludedDenial(policy, AccessDenied(Registry, key + (VIEW + view), reason)) <==> ExcludedKey(policy, key)
    ensures ExcludedDenial(policy, AccessDenied(Filesystem, path, reason)) <==> ExcludedPath(policy, path)
    ensures forall domain :: domain != Registry && domain != Filesystem ==>
              !ExcludedDenial(policy, AccessDenied(domain, path, reason))
  {
    hide ExcludedKey; hide ExcludedPath; hide DeniedKey;
    RefusedKeyIsNamed(key, name, view);
  }
}
