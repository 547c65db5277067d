// Account identifiers in text: `replace_sids` in tools/observe/src/redact.rs.
module RedactSids {
  import opened Prelude
  import opened Text

  /** A domain of identifiers, and what is written after its prefix instead. */
  datatype Domain = Domain(prefix: string, suffix: string)

  const IDENTIFYING_SIDS: seq<Domain> := [Domain("S-1-5-21-", "%REDACTED%"), Domain("S-1-5-99-", "%REDACTED%")]

  function Placeholder(domain: Domain): string {
    domain.prefix + domain.suffix
  }

  predicate InRun(c: char) {
    IsDigit(c) || c == '-'
  }

  /** The digits and hyphens a text begins with. */
  function RunLength(s: string): (n: nat)
    ensures n <= |s|
  {
    if s == "" || !InRun(s[0]) then 0 else 1 + RunLength(s[1..])
  }

  /** The first identifier of a domain: what precedes it, whether it is already
      redacted, and what follows it. */
  datatype Cut = NoSid | Sid(head: string, tail: string)

  function FirstSid(s: string, domain: Domain): (cut: Cut)
    requires domain.prefix != ""
    ensures cut.Sid? ==> |cut.tail| < |s|
  {
    var i := Find(s, domain.prefix);
    if i < 0 then NoSid
    else
      FoundFits(s, domain.prefix);
      Sid(s[..i], s[i + |domain.prefix|..])
  }

  predicate IsDone(tail: string, domain: Domain) {
    domain.suffix <= tail
  }

  function Rest(tail: string, domain: Domain): (rest: string)
    ensures |rest| <= |tail|
  {
    if IsDone(tail, domain) then tail[|domain.suffix|..] else tail[RunLength(tail)..]
  }

  function Redacted(s: string, domain: Domain): string
    requires domain.prefix != ""
    decreases |s|
  {
    match FirstSid(s, domain)
    case NoSid => s
    case Sid(head, tail) => head + (Placeholder(domain) + Redacted(Rest(tail, domain), domain))
  }

  /** Some identifier was replaced. */
  predicate Hits(s: string, domain: Domain)
    requires domain.prefix != ""
    decreases |s|
  {
    match FirstSid(s, domain)
    case NoSid => false
    case Sid(_, tail) => !IsDone(tail, domain) || Hits(Rest(tail, domain), domain)
  }

  lemma OneStep(s: string, domain: Domain)
    requires domain.prefix != "" && FirstSid(s, domain).Sid?
    ensures var cut := FirstSid(s, domain);
            && Redacted(s, domain) == cut.head + (Placeholder(domain) + Redacted(Rest(cut.tail, domain), domain))
            && (Hits(s, domain) <==> !IsDone(cut.tail, domain) || Hits(Rest(cut.tail, domain), domain))
  {
    hide FirstSid; hide IsDone; hide Rest; hide Placeholder;
  }

  lemma NoneLeft(s: string, domain: Domain)
    requires domain.prefix != "" && FirstSid(s, domain).NoSid?
    ensures Redacted(s, domain) == s && !Hits(s, domain)
  {
  }

  /** Where the cursor cuts the text after it. */
  lemma CursorCut(text: string, cursor: nat, domain: Domain)
    requires domain.prefix != "" && cursor <= |text| && Find(text[cursor..], domain.prefix) >= 0
    ensures var start := cursor + Find(text[cursor..], domain.prefix);
            && start + |domain.prefix| <= |text|
            && FirstSid(text[cursor..], domain) == Sid(text[cursor..start], text[start + |domain.prefix|..])
  {
    hide Find; hide OccursAt;
    FoundFits(text[cursor..], domain.prefix);
    var i := Find(text[cursor..], domain.prefix);
    DropDrop(text, cursor, i);
    DropDrop(text, cursor, i + |domain.prefix|);
  }

  lemma NotFound(s: string, domain: Domain)
    requires domain.prefix != "" && Find(s, domain.prefix) < 0
    ensures FirstSid(s, domain) == NoSid
  {
  }

  lemma FoundFits(s: string, part: string)
    requires Find(s, part) >= 0
    ensures Find(s, part) + |part| <= |s|
  {
    assert OccursAt(s, part, Find(s, part));
  }

  lemma RestOf(text: string, start: nat, domain: Domain)
    requires start <= |text|
    ensures IsDone(text[start..], domain) ==>
              start + |domain.suffix| <= |text| && Rest(text[start..], domain) == text[start + |domain.suffix|..]
    ensures !IsDone(text[start..], domain) ==>
              start + RunLength(text[start..]) <= |text| && Rest(text[start..], domain) == text[start + RunLength(text[start..])..]
  {
    hide RunLength;
  }

  /** `replace_sid_domain`: one cursor over the text. */
  method ReplaceSidDomain(text: string, domain: Domain) returns (r: Option<string>)
    requires domain.prefix != ""
    ensures r == if Hits(text, domain) then Some(Redacted(text, domain)) else None
  {
    hide Redacted; hide Hits; hide Find; hide RunLength; hide IsDone; hide Rest; hide Placeholder; hide FirstSid;
    var result, cursor, hit := "", 0, false;
    assert text[0..] == text;
    var found := Find(text[cursor..], domain.prefix);
    while found >= 0
      invariant cursor <= |text| && found == Find(text[cursor..], domain.prefix)
      invariant Redacted(text, domain) == result + Redacted(text[cursor..], domain)
      invariant Hits(text, domain) == (hit || Hits(text[cursor..], domain))
      decreases |text| - cursor
    {
      CursorCut(text, cursor, domain);
      OneStep(text[cursor..], domain);
      var start := cursor + found;
      var after := start + |domain.prefix|;
      RestOf(text, after, domain);
      Regrouped(result, text[cursor..start], Placeholder(domain), Redacted(Rest(text[after..], domain), domain));
      result := result + text[cursor..start];
      if IsDone(text[after..], domain) {
        cursor := after + |domain.suffix|;
      } else {
        hit := true;
        cursor := after + RunLength(text[after..]);
      }
      result := result + Placeholder(domain);
      found := Find(text[cursor..], domain.prefix);
    }
    assert FirstSid(text[cursor..], domain) == NoSid by { NotFound(text[cursor..], domain); }
    NoneLeft(text[cursor..], domain);
    result := result + text[cursor..];
    r := if hit then Some(result) else None;
  }

  // ----- completeness -----

  /** Every identifier of a domain is followed by what replaces one. */
  ghost predicate IsRedacted(s: string, domain: Domain) {
    forall i :: 0 <= i && OccursAt(s, domain.prefix, i) ==> domain.suffix <= s[i + |domain.prefix|..]
  }

  /** Prefixes that begin with a character found nowhere else in them or in
      what replaces an identifier, nor in an identifier's digits. */
  predicate Marked(domain: Domain, c: char) {
    && domain.prefix != "" && domain.prefix[0] == c && c !in domain.prefix[1..] && c !in domain.suffix
  }

  lemma OccursInHead(head: string, tail: string, prefix: string, i: nat)
    requires i + |prefix| <= |head|
    ensures OccursAt(head + tail, prefix, i) <==> OccursAt(head, prefix, i)
  {
    assert (head + tail)[i..] == head[i..] + tail;
  }

  lemma OccursInTail(head: string, tail: string, prefix: string, i: nat)
    requires i >= |head|
    ensures OccursAt(head + tail, prefix, i) <==> OccursAt(tail, prefix, i - |head|)
    ensures i <= |head + tail| ==> (head + tail)[i..] == tail[i - |head|..]
  {
  }

  lemma OccurrenceCharacter(s: string, prefix: string, i: nat, k: nat)
    requires k < |prefix|
    ensures OccursAt(s, prefix, i) ==> i + k < |s| && s[i + k] == prefix[k]
  {
    assert OccursAt(s, prefix, i) ==> s[i..][k] == s[i + k];
  }

  /** Where a prefix can occur around something that begins with its first
      character and holds it nowhere else. */
  lemma OccursInParts(head: string, middle: string, rest: string, prefix: string, i: nat)
    requires prefix != "" && middle != "" && middle[0] == prefix[0]
    requires prefix[0] !in prefix[1..] && prefix[0] !in middle[1..]
    requires OccursAt(head + (middle + rest), prefix, i)
    ensures || (i + |prefix| <= |head| && OccursAt(head, prefix, i))
            || i == |head|
            || (i >= |head| + |middle| && OccursAt(rest, prefix, i - |head| - |middle|))
  {
    var s := head + (middle + rest);
    OccurrenceCharacter(s, prefix, i, 0);
    if i + |prefix| <= |head| {
      OccursInHead(head, middle + rest, prefix, i);
    } else if i < |head| {
      OccurrenceCharacter(s, prefix, i, |head| - i);
      InTail(prefix, |head| - i);
    } else if |head| < i < |head| + |middle| {
      InTail(middle, i - |head|);
    } else if i > |head| {
      assert s == (head + middle) + rest;
      OccursInTail(head + middle, rest, prefix, i);
    }
  }

  lemma InTail(s: string, k: int)
    requires 1 <= k < |s|
    ensures s[k] in s[1..]
  {
    assert s[1..][k - 1] == s[k];
  }

  lemma CutParts(s: string, domain: Domain)
    requires domain.prefix != "" && FirstSid(s, domain).Sid?
    ensures var cut := FirstSid(s, domain);
            && s == cut.head + (domain.prefix + cut.tail)
            && (forall i :: 0 <= i ==> !OccursAt(cut.head, domain.prefix, i))
            && OccursAt(s, domain.prefix, |cut.head|) && s[|cut.head| + |domain.prefix|..] == cut.tail
  {
    var at := Find(s, domain.prefix);
    FoundFits(s, domain.prefix);
    NoneBefore(s, domain.prefix, at);
    PrefixAt(s, domain.prefix, at);
    hide Find; hide OccursAt;
  }

  lemma NoneBefore(s: string, prefix: string, at: int)
    requires prefix != "" && at == Find(s, prefix) && at >= 0
    ensures forall i :: 0 <= i ==> !OccursAt(s[..at], prefix, i)
  {
    forall i | 0 <= i ensures !OccursAt(s[..at], prefix, i) {
      OccursEarlier(s, prefix, at, i);
      hide OccursAt;
    }
  }

  lemma OccursEarlier(s: string, prefix: string, at: nat, i: nat)
    requires at <= |s| && prefix != ""
    ensures OccursAt(s[..at], prefix, i) ==> OccursAt(s, prefix, i) && i < at
  {
    assert s == s[..at] + s[at..];
    if i + |prefix| <= at {
      OccursInHead(s[..at], s[at..], prefix, i);
    }
  }

  lemma PrefixAt(s: string, prefix: string, at: nat)
    requires OccursAt(s, prefix, at) && at + |prefix| <= |s|
    ensures s == s[..at] + (prefix + s[at + |prefix|..])
  {
    assert s[at..][..|prefix|] == prefix;
    assert s == s[..at] + s[at..] && s[at..] == s[at..][..|prefix|] + s[at..][|prefix|..];
    DropDrop(s, at, |prefix|);
  }

  lemma NothingFound(s: string, domain: Domain)
    requires domain.prefix != "" && FirstSid(s, domain).NoSid?
    ensures IsRedacted(s, domain)
  {
  }

  /** A redacted identifier between text with none and redacted text. */
  lemma RedactedParts(head: string, rest: string, domain: Domain, c: char)
    requires Marked(domain, c) && IsRedacted(rest, domain)
    requires forall i :: 0 <= i ==> !OccursAt(head, domain.prefix, i)
    ensures IsRedacted(head + (Placeholder(domain) + rest), domain)
  {
    var ph, p := Placeholder(domain), domain.prefix;
    var s := head + (ph + rest);
    assert ph[1..] == p[1..] + domain.suffix;
    forall i | 0 <= i && OccursAt(s, p, i) ensures domain.suffix <= s[i + |p|..] {
      OccursInParts(head, ph, rest, p, i);
      if i == |head| {
        SuffixFollows(head, rest, domain);
      } else {
        assert s == (head + ph) + rest;
        OccursInTail(head + ph, rest, p, i + |p|);
      }
      hide OccursAt;
    }
  }

  lemma SuffixFollows(head: string, rest: string, domain: Domain)
    ensures var s, n := head + (Placeholder(domain) + rest), |head| + |domain.prefix|;
            n <= |s| && domain.suffix <= s[n..]
  {
    var s, n := head + (Placeholder(domain) + rest), |head| + |domain.prefix|;
    assert s[n..] == domain.suffix + rest;
  }

  /** After a pass, every identifier of its domain is redacted. */
  lemma {:induction false} RedactedIsComplete(s: string, domain: Domain, c: char)
    requires Marked(domain, c)
    ensures IsRedacted(Redacted(s, domain), domain)
    decreases |s|
  {
    if FirstSid(s, domain).NoSid? {
      NothingFound(s, domain);
      NoneLeft(s, domain);
    } else {
      var cut := FirstSid(s, domain);
      CutParts(s, domain);
      OneStep(s, domain);
      RedactedIsComplete(Rest(cut.tail, domain), domain, c);
      RedactedParts(cut.head, Redacted(Rest(cut.tail, domain), domain), domain, c);
      hide Redacted; hide FirstSid; hide IsRedacted; hide OccursAt;
    }
  }

  lemma RedactedTail(before: string, s: string, domain: Domain)
    requires IsRedacted(before + s, domain)
    ensures IsRedacted(s, domain)
  {
    forall i | 0 <= i && OccursAt(s, domain.prefix, i) ensures domain.suffix <= s[i + |domain.prefix|..] {
      OccursInTail(before, s, domain.prefix, |before| + i);
      OccursInTail(before, s, domain.prefix, |before| + i + |domain.prefix|);
      assert domain.suffix <= (before + s)[|before| + i + |domain.prefix|..];
      hide OccursAt;
    }
  }

  /** What is left after an identifier is the end of what follows its prefix. */
  lemma RestIsTail(s: string, head: string, tail: string, domain: Domain) returns (before: string)
    requires s == head + (domain.prefix + tail)
    ensures s == before + Rest(tail, domain)
  {
    var n := |tail| - |Rest(tail, domain)|;
    RestIsEnd(tail, domain);
    hide Rest;
    before := (head + domain.prefix) + tail[..n];
    TailOfParts(head, domain.prefix, tail, n);
  }

  lemma RestIsEnd(tail: string, domain: Domain)
    ensures Rest(tail, domain) == tail[|tail| - |Rest(tail, domain)|..]
  {
    hide RunLength;
  }

  lemma TailOfParts(head: string, prefix: string, tail: string, n: nat)
    requires n <= |tail|
    ensures head + (prefix + tail) == ((head + prefix) + tail[..n]) + tail[n..]
  {
    assert tail == tail[..n] + tail[n..];
    Regrouped(head, prefix, tail[..n], tail[n..]);
  }

  /** And a text with none left to redact is left as it is. */
  lemma {:induction false} CompleteIsFixed(s: string, domain: Domain)
    requires domain.prefix != "" && IsRedacted(s, domain)
    ensures Redacted(s, domain) == s && !Hits(s, domain)
    decreases |s|
  {
    if FirstSid(s, domain).NoSid? {
      NoneLeft(s, domain);
    } else {
      var cut := FirstSid(s, domain);
      CutParts(s, domain);
      OneStep(s, domain);
      hide Redacted; hide Hits; hide FirstSid; hide OccursAt; hide Rest; hide RunLength;
      FirstIsDone(s, cut, domain);
      hide IsRedacted; hide IsDone;
      var before := RestIsTail(s, cut.head, cut.tail, domain);
      RedactedTail(before, Rest(cut.tail, domain), domain);
      CompleteIsFixed(Rest(cut.tail, domain), domain);
      DoneParts(cut.tail, domain);
    }
  }

  lemma FirstIsDone(s: string, cut: Cut, domain: Domain)
    requires domain.prefix != "" && IsRedacted(s, domain) && cut.Sid? && s == cut.head + (domain.prefix + cut.tail)
    ensures IsDone(cut.tail, domain)
  {
    var i := |cut.head|;
    assert s[i..] == domain.prefix + cut.tail;
    assert OccursAt(s, domain.prefix, i);
    assert s[i + |domain.prefix|..] == cut.tail;
  }

  lemma DoneParts(tail: string, domain: Domain)
    requires IsDone(tail, domain)
    ensures Placeholder(domain) + Rest(tail, domain) == domain.prefix + tail
  {
    assert tail == domain.suffix + tail[|domain.suffix|..];
  }

  lemma {:induction false} UnhitIsFixed(s: string, domain: Domain)
    requires domain.prefix != "" && !Hits(s, domain)
    ensures Redacted(s, domain) == s
    decreases |s|
  {
    if FirstSid(s, domain).NoSid? {
      NoneLeft(s, domain);
    } else {
      var cut := FirstSid(s, domain);
      CutParts(s, domain);
      OneStep(s, domain);
      UnhitIsFixed(Rest(cut.tail, domain), domain);
      DoneParts(cut.tail, domain);
      hide Redacted; hide Hits; hide FirstSid; hide OccursAt; hide IsDone; hide Rest; hide Placeholder;
    }
  }

  // ----- both domains -----

  /** A pass over one domain leaves what another pass redacted redacted. */
  lemma {:induction false} RedactedStays(s: string, domain: Domain, other: Domain, c: char)
    requires Marked(domain, c) && Marked(other, c) && |domain.prefix| == |other.prefix| && domain.prefix != other.prefix
    requires IsRedacted(s, other)
    ensures IsRedacted(Redacted(s, domain), other)
    decreases |s|
  {
    if FirstSid(s, domain).NoSid? {
      NoneLeft(s, domain);
    } else {
      var cut := FirstSid(s, domain);
      CutParts(s, domain);
      OneStep(s, domain);
      var before := RestIsTail(s, cut.head, cut.tail, domain);
      RedactedTail(before, Rest(cut.tail, domain), other);
      RedactedStays(Rest(cut.tail, domain), domain, other, c);
      OtherParts(cut.head, domain.prefix + cut.tail, Redacted(Rest(cut.tail, domain), domain), domain, other, c);
      hide Redacted; hide FirstSid; hide IsRedacted; hide OccursAt; hide Rest;
    }
  }

  lemma OtherParts(head: string, tail: string, rest: string, domain: Domain, other: Domain, c: char)
    requires Marked(domain, c) && Marked(other, c) && |domain.prefix| == |other.prefix| && domain.prefix != other.prefix
    requires tail != "" && tail[0] == c && IsRedacted(head + tail, other) && IsRedacted(rest, other)
    ensures IsRedacted(head + (Placeholder(domain) + rest), other)
  {
    var ph, p := Placeholder(domain), other.prefix;
    var s := head + (ph + rest);
    assert ph[1..] == domain.prefix[1..] + domain.suffix;
    forall i | 0 <= i && OccursAt(s, p, i) ensures other.suffix <= s[i + |p|..] {
      OccursInParts(head, ph, rest, p, i);
      NotThere(head, rest, domain, other);
      if i < |head| {
        OccursInHead(head, tail, p, i);
        SuffixInHead(head, tail, ph + rest, other, c, i + |p|);
      } else if i > |head| {
        assert s == (head + ph) + rest;
        OccursInTail(head + ph, rest, p, i + |p|);
      }
    }
  }

  lemma NotThere(head: string, rest: string, domain: Domain, other: Domain)
    requires |domain.prefix| == |other.prefix| && domain.prefix != other.prefix
    ensures !OccursAt(head + (Placeholder(domain) + rest), other.prefix, |head|)
  {
    var s := head + (Placeholder(domain) + rest);
    assert s[|head|..] == domain.prefix + (domain.suffix + rest);
    assert s[|head|..][..|domain.prefix|] == domain.prefix;
  }

  lemma PrefixHolds(part: string, s: string, k: int)
    requires part <= s && 0 <= k < |part|
    ensures s[k] in part
  {
  }

  /** What follows an identifier does not reach past the next one's beginning. */
  lemma SuffixInHead(head: string, tail: string, other: string, domain: Domain, c: char, i: nat)
    requires Marked(domain, c) && tail != "" && tail[0] == c && i <= |head| && domain.suffix <= (head + tail)[i..]
    ensures domain.suffix <= (head + other)[i..]
  {
    assert (head + tail)[i..] == head[i..] + tail && (head + other)[i..] == head[i..] + other;
    if i + |domain.suffix| > |head| {
      PrefixHolds(domain.suffix, head[i..] + tail, |head| - i);
    }
  }

  function SidsRedacted(s: string): string {
    Redacted(Redacted(s, IDENTIFYING_SIDS[0]), IDENTIFYING_SIDS[1])
  }

  /** The placeholders a text needs, in the order of the domains. */
  function Used(s: string): seq<string> {
    (if Hits(s, IDENTIFYING_SIDS[0]) then [Placeholder(IDENTIFYING_SIDS[0])] else [])
    + if Hits(Redacted(s, IDENTIFYING_SIDS[0]), IDENTIFYING_SIDS[1]) then [Placeholder(IDENTIFYING_SIDS[1])] else []
  }

  /** `replace_sids`: one pass a domain, each over what the last one left. */
  method ReplaceSids(text: string) returns (r: Option<(string, seq<string>)>)
    ensures r == None ==> SidsRedacted(text) == text
    ensures r.Some? ==> r.value == (SidsRedacted(text), Used(text)) && Used(text) != []
    ensures r.Some? <==> Hits(text, IDENTIFYING_SIDS[0]) || Hits(Redacted(text, IDENTIFYING_SIDS[0]), IDENTIFYING_SIDS[1])
  {
    hide Redacted; hide Hits;
    var result, used := text, [];
    var first := ReplaceSidDomain(result, IDENTIFYING_SIDS[0]);
    if first.Some? {
      result, used := first.value, used + [Placeholder(IDENTIFYING_SIDS[0])];
    } else {
      UnhitIsFixed(result, IDENTIFYING_SIDS[0]);
    }
    var second := ReplaceSidDomain(result, IDENTIFYING_SIDS[1]);
    if second.Some? {
      result, used := second.value, used + [Placeholder(IDENTIFYING_SIDS[1])];
    } else {
      UnhitIsFixed(result, IDENTIFYING_SIDS[1]);
    }
    assert used == Used(text);
    r := if used == [] then None else Some((result, used));
  }

  lemma SidsAreMarked()
    ensures Marked(IDENTIFYING_SIDS[0], 'S') && Marked(IDENTIFYING_SIDS[1], 'S')
    ensures |IDENTIFYING_SIDS[0].prefix| == |IDENTIFYING_SIDS[1].prefix|
    ensures IDENTIFYING_SIDS[0].prefix != IDENTIFYING_SIDS[1].prefix
  {
    assert IDENTIFYING_SIDS[0].prefix[6] != IDENTIFYING_SIDS[1].prefix[6];
  }

  /** After the passes every identifier of either domain is redacted, and a
      second run changes nothing. */
  lemma SidPassesAreCompleteAndIdempotent(s: string)
    ensures IsRedacted(SidsRedacted(s), IDENTIFYING_SIDS[0]) && IsRedacted(SidsRedacted(s), IDENTIFYING_SIDS[1])
    ensures SidsRedacted(SidsRedacted(s)) == SidsRedacted(s)
    ensures !Hits(SidsRedacted(s), IDENTIFYING_SIDS[0]) && !Hits(SidsRedacted(s), IDENTIFYING_SIDS[1])
  {
    SidsAreMarked();
    hide Redacted; hide Hits; hide IsRedacted; hide Marked;
    var once := Redacted(s, IDENTIFYING_SIDS[0]);
    RedactedIsComplete(s, IDENTIFYING_SIDS[0], 'S');
    RedactedIsComplete(once, IDENTIFYING_SIDS[1], 'S');
    RedactedStays(once, IDENTIFYING_SIDS[1], IDENTIFYING_SIDS[0], 'S');
    CompleteIsFixed(SidsRedacted(s), IDENTIFYING_SIDS[0]);
    CompleteIsFixed(SidsRedacted(s), IDENTIFYING_SIDS[1]);
  }
}
