// What several lists of changes have in common, by identity: `shared`,
// `shared_list` and `rebooted_in_any` in tools/observe/src/intersect.rs.
module Sharing {
  import opened Prelude
  import opened Ordered
  import opened Keyed

  /** One footprint's changes in one domain: kept, and set aside. */
  datatype Side<T, S> = Side(kept: seq<T>, suppressed: seq<S>)

  datatype Indexed<T, S> = Indexed(kept: map<string, T>, suppressed: map<string, S>)

  function IdentityOf<T, S>(identity: T -> string, changeOf: S -> T): S -> string {
    (entry: S) => identity(changeOf(entry))
  }

  function IndexedBy<T, S>(identity: T -> string, changeOf: S -> T): Side<T, S> -> Indexed<T, S> {
    (side: Side<T, S>) => Indexed(Index(side.kept, identity), Index(side.suppressed, IdentityOf(identity, changeOf)))
  }

  predicate Present<T, S>(side: Indexed<T, S>, key: string) {
    key in side.kept || key in side.suppressed
  }

  predicate Everywhere<T, S>(sides: seq<Indexed<T, S>>, key: string) {
    sides == [] || (Everywhere(sides[..|sides| - 1], key) && Present(sides[|sides| - 1], key))
  }

  /** `find_map`: the change of the first footprint that kept one. */
  function FirstKept<T, S>(sides: seq<Indexed<T, S>>, key: string): Option<T> {
    if sides == [] then None
    else if key in sides[0].kept then Some(sides[0].kept[key])
    else FirstKept(sides[1..], key)
  }

  function KeptAt<T, S>(sides: seq<Indexed<T, S>>): string -> Option<T> {
    (key: string) => if Everywhere(sides, key) then FirstKept(sides, key) else None
  }

  function SuppressedAt<T, S>(sides: seq<Indexed<T, S>>): string -> Option<S> {
    (key: string) =>
      if sides != [] && Everywhere(sides, key) && FirstKept(sides, key).None? then Look(sides[0].suppressed, key) else None
  }

  function Candidates<T, S>(sides: seq<Indexed<T, S>>): seq<string> {
    if sides == [] then [] else Names(sides[0].kept, sides[0].suppressed)
  }

  function SharedKept<T, S>(sides: seq<Side<T, S>>, identity: T -> string, changeOf: S -> T): seq<T> {
    var indexed := Mapped(sides, IndexedBy(identity, changeOf));
    Collected(Candidates(indexed), KeptAt(indexed))
  }

  function SharedSuppressed<T, S>(sides: seq<Side<T, S>>, identity: T -> string, changeOf: S -> T): seq<S> {
    var indexed := Mapped(sides, IndexedBy(identity, changeOf));
    Collected(Candidates(indexed), SuppressedAt(indexed))
  }

  /** `shared`. */
  method Shared<T, S>(sides: seq<Side<T, S>>, identity: T -> string, changeOf: S -> T)
    returns (kept: seq<T>, suppressed: seq<S>)
    ensures kept == SharedKept(sides, identity, changeOf)
    ensures suppressed == SharedSuppressed(sides, identity, changeOf)
  {
    hide Everywhere; hide FirstKept; hide Names; hide Mapped;
    var indexed := Mapped(sides, IndexedBy(identity, changeOf));
    kept, suppressed := [], [];
    CollectedNone(KeptAt(indexed));
    CollectedNone(SuppressedAt(indexed));
    hide Collected;
    if indexed == [] {
      return;
    }
    var candidates := Candidates(indexed);
    hide Candidates;
    for i := 0 to |candidates|
      invariant kept == Collected(candidates[..i], KeptAt(indexed))
      invariant suppressed == Collected(candidates[..i], SuppressedAt(indexed))
    {
      var key := candidates[i];
      assert candidates[..i + 1] == candidates[..i] + [key];
      CollectedMore(candidates[..i], key, KeptAt(indexed));
      CollectedMore(candidates[..i], key, SuppressedAt(indexed));
      if Everywhere(indexed, key) {
        var change := FirstKept(indexed, key);
        if change.Some? {
          kept := kept + [change.value];
        } else if key in indexed[0].suppressed {
          suppressed := suppressed + [indexed[0].suppressed[key]];
        }
      }
    }
    assert candidates[..|candidates|] == candidates;
  }

  // ----- identities -----

  ghost predicate HoldsKept<T, S>(side: Side<T, S>, identity: T -> string, key: string) {
    exists c :: c in side.kept && identity(c) == key
  }

  ghost predicate HoldsSuppressed<T, S>(side: Side<T, S>, identity: T -> string, changeOf: S -> T, key: string) {
    exists e :: e in side.suppressed && identity(changeOf(e)) == key
  }

  ghost predicate HoldsKey<T, S>(side: Side<T, S>, identity: T -> string, changeOf: S -> T, key: string) {
    HoldsKept(side, identity, key) || HoldsSuppressed(side, identity, changeOf, key)
  }

  /** Every footprint holds the item. */
  ghost predicate InAll<T(!new), S(!new)>(sides: seq<Side<T, S>>, identity: T -> string, changeOf: S -> T, key: string) {
    forall side :: side in sides ==> HoldsKey(side, identity, changeOf, key)
  }

  /** Some footprint kept it. */
  ghost predicate KeptInAny<T(!new), S(!new)>(sides: seq<Side<T, S>>, identity: T -> string, key: string) {
    exists side :: side in sides && HoldsKept(side, identity, key)
  }

  lemma IndexedHolds<T(!new), S(!new)>(side: Side<T, S>, identity: T -> string, changeOf: S -> T, key: string)
    ensures var i := IndexedBy(identity, changeOf)(side);
            && (key in i.kept <==> HoldsKept(side, identity, key))
            && (key in i.suppressed <==> HoldsSuppressed(side, identity, changeOf, key))
            && (key in i.kept ==> i.kept[key] in side.kept && identity(i.kept[key]) == key)
            && (key in i.suppressed ==> i.suppressed[key] in side.suppressed && identity(changeOf(i.suppressed[key])) == key)
  {
    IndexHolds(side.kept, identity);
    IndexHolds(side.suppressed, IdentityOf(identity, changeOf));
  }

  lemma {:induction false} EverywhereIsInAll<T(!new), S(!new)>(sides: seq<Side<T, S>>, identity: T -> string, changeOf: S -> T, key: string)
    ensures Everywhere(Mapped(sides, IndexedBy(identity, changeOf)), key) <==> InAll(sides, identity, changeOf, key)
  {
    if sides != [] {
      var n := |sides| - 1;
      assert sides == sides[..n] + [sides[n]];
      EverywhereIsInAll(sides[..n], identity, changeOf, key);
      IndexedHolds(sides[n], identity, changeOf, key);
      var f := IndexedBy(identity, changeOf);
      assert Mapped(sides, f)[..n] == Mapped(sides[..n], f);
      assert HoldsKey(sides[n], identity, changeOf, key) == Present(f(sides[n]), key);
      assert sides[n] in sides && forall side :: side in sides ==> side in sides[..n] || side == sides[n];
    }
  }

  /** Which change is kept: that of the first footprint that kept the item. */
  ghost predicate ComesFromFirst<T, S>(sides: seq<Side<T, S>>, identity: T -> string, key: string, change: T) {
    sides != [] && if HoldsKept(sides[0], identity, key) then change in sides[0].kept && identity(change) == key
                   else ComesFromFirst(sides[1..], identity, key, change)
  }

  lemma {:induction false} FirstKeptIsFirst<T(!new), S(!new)>(sides: seq<Side<T, S>>, identity: T -> string, changeOf: S -> T, key: string)
    ensures var first := FirstKept(Mapped(sides, IndexedBy(identity, changeOf)), key);
            && (first.Some? <==> KeptInAny(sides, identity, key))
            && (first.Some? ==> identity(first.value) == key && ComesFromFirst(sides, identity, key, first.value))
  {
    if sides != [] {
      var f := IndexedBy(identity, changeOf);
      IndexedHolds(sides[0], identity, changeOf, key);
      FirstKeptIsFirst(sides[1..], identity, changeOf, key);
      assert sides == [sides[0]] + sides[1..];
      assert Mapped(sides, f)[1..] == Mapped(sides[1..], f);
      hide HoldsKept;
      assert KeptInAny(sides, identity, key) <==> HoldsKept(sides[0], identity, key) || KeptInAny(sides[1..], identity, key);
      hide KeptInAny;
    }
  }

  lemma CandidatesAre<T(!new), S(!new)>(sides: seq<Side<T, S>>, identity: T -> string, changeOf: S -> T, key: string)
    requires sides != []
    ensures var indexed := Mapped(sides, IndexedBy(identity, changeOf));
            && indexed != [] && NoRepeats(Candidates(indexed))
            && (key in Candidates(indexed) <==> HoldsKey(sides[0], identity, changeOf, key))
  {
    var indexed := Mapped(sides, IndexedBy(identity, changeOf));
    assert indexed[0] == IndexedBy(identity, changeOf)(sides[0]);
    NamesAre(indexed[0].kept, indexed[0].suppressed);
    IndexedHolds(sides[0], identity, changeOf, key);
  }

  /** The identities of the shared changes are exactly those every footprint
      holds and some footprint kept; of the suppressed ones, those every
      footprint holds and none kept. */
  lemma SharedIdentities<T(!new), S(!new)>(sides: seq<Side<T, S>>, identity: T -> string, changeOf: S -> T, key: string)
    requires sides != []
    ensures (exists c :: c in SharedKept(sides, identity, changeOf) && identity(c) == key)
       <==> InAll(sides, identity, changeOf, key) && KeptInAny(sides, identity, key)
    ensures (exists e :: e in SharedSuppressed(sides, identity, changeOf) && identity(changeOf(e)) == key)
       <==> InAll(sides, identity, changeOf, key) && !KeptInAny(sides, identity, key)
  {
    hide InAll;
    hide KeptInAny;
    SharedKeptIdentity(sides, identity, changeOf, key);
    SharedSuppressedIdentity(sides, identity, changeOf, key);
  }

  lemma KeptAtIdentity<T(!new), S(!new)>(sides: seq<Side<T, S>>, identity: T -> string, changeOf: S -> T, key: string)
    requires sides != []
    ensures var at := KeptAt(Mapped(sides, IndexedBy(identity, changeOf)))(key);
            && (at.Some? <==> InAll(sides, identity, changeOf, key) && KeptInAny(sides, identity, key))
            && (at.Some? ==> identity(at.value) == key && ComesFromFirst(sides, identity, key, at.value))
    ensures var at := SuppressedAt(Mapped(sides, IndexedBy(identity, changeOf)))(key);
            && (at.Some? <==> InAll(sides, identity, changeOf, key) && !KeptInAny(sides, identity, key))
            && (at.Some? ==> identity(changeOf(at.value)) == key)
  {
    EverywhereIsInAll(sides, identity, changeOf, key);
    FirstKeptIsFirst(sides, identity, changeOf, key);
    IndexedHolds(sides[0], identity, changeOf, key);
    hide Everywhere;
    hide FirstKept;
    hide HoldsKept;
    hide HoldsSuppressed;
    hide ComesFromFirst;
    assert sides[0] in sides;
  }

  lemma SharedKeptIdentity<T(!new), S(!new)>(sides: seq<Side<T, S>>, identity: T -> string, changeOf: S -> T, key: string)
    requires sides != []
    ensures (exists c :: c in SharedKept(sides, identity, changeOf) && identity(c) == key)
       <==> InAll(sides, identity, changeOf, key) && KeptInAny(sides, identity, key)
  {
    var indexed := Mapped(sides, IndexedBy(identity, changeOf));
    SharedAreListed(sides, identity, changeOf);
    CandidatesAre(sides, identity, changeOf, key);
    KeptAtIdentity(sides, identity, changeOf, key);
    assert sides[0] in sides;
    assert InAll(sides, identity, changeOf, key) ==> HoldsKey(sides[0], identity, changeOf, key);
    hide InAll; hide KeptInAny; hide HoldsKey; hide KeptAt; hide Candidates;
    ListedAt(SharedKept(sides, identity, changeOf), Candidates(indexed), KeptAt(indexed), identity, key);
  }

  lemma SharedSuppressedIdentity<T(!new), S(!new)>(sides: seq<Side<T, S>>, identity: T -> string, changeOf: S -> T, key: string)
    requires sides != []
    ensures (exists e :: e in SharedSuppressed(sides, identity, changeOf) && identity(changeOf(e)) == key)
       <==> InAll(sides, identity, changeOf, key) && !KeptInAny(sides, identity, key)
  {
    var indexed := Mapped(sides, IndexedBy(identity, changeOf));
    SharedAreListed(sides, identity, changeOf);
    CandidatesAre(sides, identity, changeOf, key);
    KeptAtIdentity(sides, identity, changeOf, key);
    assert sides[0] in sides;
    assert InAll(sides, identity, changeOf, key) ==> HoldsKey(sides[0], identity, changeOf, key);
    hide InAll; hide KeptInAny; hide HoldsKey; hide SuppressedAt; hide Candidates;
    ListedAt(SharedSuppressed(sides, identity, changeOf), Candidates(indexed), SuppressedAt(indexed),
             IdentityOf(identity, changeOf), key);
    assert forall e :: IdentityOf(identity, changeOf)(e) == identity(changeOf(e));
  }

  lemma SharedAreListed<T(!new), S(!new)>(sides: seq<Side<T, S>>, identity: T -> string, changeOf: S -> T)
    requires sides != []
    ensures var indexed := Mapped(sides, IndexedBy(identity, changeOf));
            && NoRepeats(Candidates(indexed))
            && Lists(SharedKept(sides, identity, changeOf), Candidates(indexed), KeptAt(indexed), identity)
            && Lists(SharedSuppressed(sides, identity, changeOf), Candidates(indexed), SuppressedAt(indexed),
                     IdentityOf(identity, changeOf))
  {
    var indexed := Mapped(sides, IndexedBy(identity, changeOf));
    forall key ensures (KeptAt(indexed)(key).Some? ==> identity(KeptAt(indexed)(key).value) == key)
                    && (SuppressedAt(indexed)(key).Some? ==> identity(changeOf(SuppressedAt(indexed)(key).value)) == key)
    {
      KeptAtIdentity(sides, identity, changeOf, key);
    }
    CandidatesAre(sides, identity, changeOf, "");
    hide KeptAt; hide SuppressedAt; hide Candidates;
    CollectedLists(Candidates(indexed), KeptAt(indexed), identity);
    CollectedLists(Candidates(indexed), SuppressedAt(indexed), IdentityOf(identity, changeOf));
  }

  /** The record kept for an item is that of the first footprint to keep it. */
  lemma SharedComesFromFirst<T(!new), S(!new)>(sides: seq<Side<T, S>>, identity: T -> string, changeOf: S -> T, change: T)
    requires sides != [] && change in SharedKept(sides, identity, changeOf)
    ensures ComesFromFirst(sides, identity, identity(change), change)
  {
    var indexed := Mapped(sides, IndexedBy(identity, changeOf));
    CollectedHolds(Candidates(indexed), KeptAt(indexed), change);
    var key :| key in Candidates(indexed) && KeptAt(indexed)(key) == Some(change);
    KeptAtIdentity(sides, identity, changeOf, key);
    hide KeptAt; hide ComesFromFirst;
  }

  // ----- the order of the footprints, and adding one -----

  /** The same footprints, in any order. */
  ghost predicate SameMembers<T(!new)>(a: seq<T>, b: seq<T>) {
    forall t :: t in a <==> t in b
  }

  // ----- lists -----

  predicate HasIdentity<T(==)>(list: seq<T>, identity: T -> string, key: string) {
    exists t :: t in list && identity(t) == key
  }

  predicate KnownToHave<T(==)>(list: Option<seq<T>>, identity: T -> string, key: string) {
    list.Some? && HasIdentity(list.value, identity, key)
  }

  predicate InEach<T(==)>(lists: seq<seq<T>>, identity: T -> string, key: string) {
    forall list :: list in lists ==> HasIdentity(list, identity, key)
  }

  function InOthers<T(==)>(others: seq<seq<T>>, identity: T -> string): T -> bool {
    (entry: T) => InEach(others, identity, identity(entry))
  }

  /** `collect::<Option<_>>`: every list, or nothing if one is unknown. */
  function AllKnown<T>(lists: seq<Option<seq<T>>>): Option<seq<seq<T>>> {
    if lists == [] then Some([])
    else
      var rest := AllKnown(lists[1..]);
      if lists[0].Some? && rest.Some? then Some([lists[0].value] + rest.value) else None
  }

  /** `shared_list`. */
  function SharedList<T(==, !new)>(lists: seq<Option<seq<T>>>, identity: T -> string): Option<seq<T>> {
    match AllKnown(lists)
    case None => None
    case Some(known) => if known == [] then None else Some(Retained(known[0], InOthers(known[1..], identity)))
  }

  lemma {:induction false} AllKnownHolds<T>(lists: seq<Option<seq<T>>>)
    ensures AllKnown(lists).Some? <==> forall list :: list in lists ==> list.Some?
    ensures AllKnown(lists).Some? ==> forall list: seq<T> :: list in AllKnown(lists).value <==> Some(list) in lists
    ensures AllKnown(lists).Some? ==> |AllKnown(lists).value| == |lists|
  {
    if lists != [] {
      AllKnownHolds(lists[1..]);
      assert lists == [lists[0]] + lists[1..];
    }
  }

  /** Known when every footprint knows the list, and then its identities are
      exactly those in every one: so in any order, and fewer with more. */
  lemma SharedListIdentities<T(!new)>(lists: seq<Option<seq<T>>>, identity: T -> string, key: string)
    requires lists != []
    ensures SharedList(lists, identity).Some? <==> forall list :: list in lists ==> list.Some?
    ensures SharedList(lists, identity).Some? ==>
              (HasIdentity(SharedList(lists, identity).value, identity, key)
               <==> forall list :: list in lists ==> KnownToHave(list, identity, key))
  {
    AllKnownHolds(lists);
    if SharedList(lists, identity).Some? {
      var known := AllKnown(lists).value;
      assert known == [known[0]] + known[1..];
      if HasIdentity(SharedList(lists, identity).value, identity, key) {
        var t :| t in SharedList(lists, identity).value && identity(t) == key;
        assert InEach(known[1..], identity, key);
      }
      if forall list :: list in lists ==> KnownToHave(list, identity, key) {
        forall list | list in known ensures HasIdentity(list, identity, key) {
          assert KnownToHave(Some(list), identity, key);
        }
        assert known[0] in known;
        var t :| t in known[0] && identity(t) == key;
        assert InOthers(known[1..], identity)(t);
      }
    }
  }

  // ----- the restart -----

  /** `rebooted_in_any`. */
  function RebootedInAny(answers: seq<Option<bool>>): Option<bool> {
    if Some(true) in answers then Some(true)
    else if forall answer :: answer in answers ==> answer == Some(false) then Some(false)
    else None
  }

  /** Kleene's disjunction of two answers, one of which may be unknown. */
  function Or(a: Option<bool>, b: Option<bool>): Option<bool> {
    if a == Some(true) || b == Some(true) then Some(true)
    else if a == Some(false) && b == Some(false) then Some(false)
    else None
  }

  /** The answer for all the footprints is the three-valued "or" of theirs. */
  lemma RebootedInMore(answers: seq<Option<bool>>, answer: Option<bool>)
    ensures RebootedInAny(answers + [answer]) == Or(RebootedInAny(answers), answer)
    ensures RebootedInAny([]) == Some(false)
  {
    assert answer in answers + [answer];
    assert forall a :: a in answers ==> a in answers + [answer];
  }
}
