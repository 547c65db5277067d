// What the redactor's passes make of a text that names somebody, from its parts:
// tools/observe/src/redact.rs.
module RedactedText {
  import opened Prelude
  import opened Text
  import Redact
  import opened RedactSids

  // ----- identifiers -----

  /** The run a text begins with is all of its first digits and hyphens. */
  lemma {:induction false} RunIsMaximal(s: string)
    ensures forall c :: c in s[..RunLength(s)] ==> '0' <= c <= '9' || c == '-'
    ensures RunLength(s) < |s| ==> !('0' <= s[RunLength(s)] <= '9') && s[RunLength(s)] != '-'
  {
    if s != "" && InRun(s[0]) {
      RunIsMaximal(s[1..]);
      assert s[..RunLength(s)] == [s[0]] + s[1..][..RunLength(s[1..])];
    }
  }

  predicate IsRun(run: string) {
    forall c :: c in run ==> '0' <= c <= '9' || c == '-'
  }

  predicate EndsRun(post: string) {
    post == "" || (!('0' <= post[0] <= '9') && post[0] != '-')
  }

  lemma {:induction false} RunIs(run: string, post: string)
    requires IsRun(run) && EndsRun(post)
    ensures RunLength(run + post) == |run|
  {
    if run == "" {
      assert run + post == post;
    } else {
      assert (run + post)[0] == run[0] && run[0] in run;
      assert (run + post)[1..] == run[1..] + post;
      assert forall c :: c in run[1..] ==> c in run;
      RunIs(run[1..], post);
    }
  }

  lemma FoundAfter(pre: string, part: string, post: string)
    requires part != "" && forall j :: 0 <= j < |pre| ==> !OccursAt(pre + (part + post), part, j)
    ensures Find(pre + (part + post), part) == |pre|
  {
    var s := pre + (part + post);
    assert s[|pre|..] == part + post;
    assert OccursAt(s, part, |pre|);
  }

  /** The first identifier of a domain becomes the domain's placeholder, however
      long it is, and what follows it is redacted in turn. */
  lemma FirstIdentifierIsMasked(pre: string, run: string, post: string, domain: Domain)
    requires domain.prefix != "" && IsRun(run) && EndsRun(post) && !(domain.suffix <= run + post)
    requires forall j :: 0 <= j < |pre| ==> !OccursAt(pre + (domain.prefix + (run + post)), domain.prefix, j)
    ensures Redacted(pre + (domain.prefix + (run + post)), domain)
         == pre + (domain.prefix + domain.suffix + Redacted(post, domain))
    ensures Hits(pre + (domain.prefix + (run + post)), domain)
  {
    hide FirstSid; hide OccursAt; hide IsRun; hide Redacted; hide Hits; hide RunLength;
    FirstIs(pre, run + post, domain);
    OneStep(pre + (domain.prefix + (run + post)), domain);
    RunIs(run, post);
    EndOfParts(run, post);
  }

  lemma EndOfParts(a: string, b: string)
    ensures (a + b)[|a|..] == b && a <= a + b
  {
  }

  lemma FirstIs(pre: string, tail: string, domain: Domain)
    requires domain.prefix != ""
    requires forall j :: 0 <= j < |pre| ==> !OccursAt(pre + (domain.prefix + tail), domain.prefix, j)
    ensures FirstSid(pre + (domain.prefix + tail), domain) == Sid(pre, tail)
  {
    var s, p := pre + (domain.prefix + tail), domain.prefix;
    hide Find; hide OccursAt;
    FoundAfter(pre, p, tail);
    assert s[..|pre|] == pre && s[|pre| + |p|..] == tail;
  }

  /** One that is masked already stays as it is. */
  lemma MaskedIdentifierStays(pre: string, post: string, domain: Domain)
    requires domain.prefix != ""
    requires forall j :: 0 <= j < |pre| ==> !OccursAt(pre + (domain.prefix + (domain.suffix + post)), domain.prefix, j)
    ensures Redacted(pre + (domain.prefix + (domain.suffix + post)), domain)
         == pre + (domain.prefix + domain.suffix + Redacted(post, domain))
    ensures Hits(pre + (domain.prefix + (domain.suffix + post)), domain) == Hits(post, domain)
  {
    hide FirstSid; hide OccursAt; hide Redacted; hide Hits; hide RunLength;
    FirstIs(pre, domain.suffix + post, domain);
    OneStep(pre + (domain.prefix + (domain.suffix + post)), domain);
    EndOfParts(domain.suffix, post);
  }

  /** The domains masked are those of machine accounts and of identity stores,
      and nothing else of a text is. */
  lemma DomainsAre()
    ensures IDENTIFYING_SIDS == [Domain("S-1-5-21-", "%REDACTED%"), Domain("S-1-5-99-", "%REDACTED%")]
    ensures forall s :: SidsRedacted(s) == Redacted(Redacted(s, IDENTIFYING_SIDS[0]), IDENTIFYING_SIDS[1])
  {
  }

  // ----- profiles -----

  /** A profile that is nobody's, or is masked already. */
  predicate IsNobody(name: string) {
    || EqFold(name, "public") || EqFold(name, "default") || EqFold(name, "all users") || EqFold(name, "default user")
    || name == "%USER%" || name == ""
  }

  /** The first name after a `Users` folder, in any case, becomes `%USER%` unless
      it is nobody's, and what follows it is redacted in turn. */
  lemma FirstProfileIsMasked(pre: string, users: string, name: string, post: string)
    requires EqFold(users, "\\users\\") && '\\' !in name && (post == "" || post[0] == '\\')
    requires forall j :: 0 <= j < |pre| ==> !Redact.UsersAt(pre + (users + (name + post)), j)
    ensures Redact.Anonymised(pre + (users + (name + post)))
         == pre + users + ((if IsNobody(name) then name else "%USER%") + Redact.Anonymised(post))
  {
    var s := pre + (users + (name + post));
    UsersAfter(pre, users, name + post);
    hide Redact.UsersAt; hide EqFold;
    NameIs(name, post);
    assert s[..|pre| + 7] == pre + users && s[|pre| + 7..] == name + post;
    assert |Redact.USERS| == 7;
    assert Redact.FirstProfile(s) == Redact.Profile(pre + users, name, post);
    hide Redact.FirstProfile;
    NobodyIs(name);
  }

  lemma NobodyIs(name: string)
    ensures Redact.Masked(name) == if IsNobody(name) then name else "%USER%"
  {
    hide EqFold;
  }

  lemma NameIs(name: string, post: string)
    requires '\\' !in name && (post == "" || post[0] == '\\')
    ensures var t := name + post; IndexOf(t, '\\') == |name| && t[..|name|] == name && t[|name|..] == post
  {
    var t := name + post;
    assert post != "" ==> t[|name|] == '\\';
    assert forall j :: 0 <= j < |name| ==> t[j] == name[j] && name[j] in name;
  }

  lemma UsersAfter(pre: string, users: string, tail: string)
    requires EqFold(users, "\\users\\")
    requires forall j :: 0 <= j < |pre| ==> !Redact.UsersAt(pre + (users + tail), j)
    ensures |users| == 7 && Redact.FindUsers(pre + (users + tail)) == |pre|
  {
    var s := pre + (users + tail);
    FoldIndex(users, "\\users\\", 0);
    assert |users| == 7;
    forall j | |pre| <= j < |pre| + 7 ensures Lower(s[j]) == Redact.USERS[j - |pre|] {
      FoldIndex(users, "\\users\\", j - |pre|);
      UsersIsLower(j - |pre|);
      assert s[j] == users[j - |pre|];
    }
    assert Redact.UsersAt(s, |pre|);
    hide Redact.UsersAt; hide EqFold;
    assert Redact.FindUsers(s) <= |pre|;
  }

  lemma UsersIsLower(i: nat)
    requires i < 7
    ensures Lower("\\users\\"[i]) == Redact.USERS[i]
  {
  }
}
