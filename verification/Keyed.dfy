// Records indexed by identity, changes listed in the order of the identities,
// and what a list of changes does to an index: the shape the three domains of a
// diff share.
module Keyed {
  import opened Prelude
  import opened Ordered

  function Look<K, R>(m: map<K, R>, k: K): Option<R> {
    if k in m then Some(m[k]) else None
  }

  /** An index built record by record: of two with one key, the later stays. */
  function Index<K, R>(records: seq<R>, key: R -> K): map<K, R> {
    if records == [] then map[]
    else
      var n := |records| - 1;
      Index(records[..n], key)[key(records[n]) := records[n]]
  }

  function Listed<C>(found: Option<C>): seq<C> {
    match found case None => [] case Some(c) => [c]
  }

  /** `filter_map`: what there is at each key, in the order of the keys. */
  function Collected<K, C>(ks: seq<K>, at: K -> Option<C>): seq<C> {
    if ks == [] then []
    else
      var n := |ks| - 1;
      Collected(ks[..n], at) + Listed(at(ks[n]))
  }

  function Mapped<C, D>(cs: seq<C>, f: C -> D): (ds: seq<D>)
    ensures |ds| == |cs| && forall i :: 0 <= i < |cs| ==> ds[i] == f(cs[i])
  {
    if cs == [] then [] else Mapped(cs[..|cs| - 1], f) + [f(cs[|cs| - 1])]
  }

  lemma MappedMore<C, D>(cs: seq<C>, c: C, f: C -> D)
    ensures Mapped(cs + [c], f) == Mapped(cs, f) + [f(c)]
  {
    assert (cs + [c])[..|cs|] == cs;
  }

  lemma CollectedNone<K, C>(at: K -> Option<C>)
    ensures Collected([], at) == []
  {
  }

  lemma SliceMore<K>(ks: seq<K>, start: nat, end: nat)
    requires start <= end < |ks|
    ensures ks[start..end + 1] == ks[start..end] + [ks[end]]
  {
  }

  lemma CollectedMore<K, C>(ks: seq<K>, k: K, at: K -> Option<C>)
    ensures Collected(ks + [k], at) == match at(k) case None => Collected(ks, at) case Some(c) => Collected(ks, at) + [c]
  {
    assert (ks + [k])[..|ks|] == ks;
  }

  lemma IndexMore<K, R>(records: seq<R>, r: R, key: R -> K)
    ensures Index(records + [r], key) == Index(records, key)[key(r) := r]
  {
    assert (records + [r])[..|records|] == records;
  }

  /** `retain`. */
  function Retained<C(!new)>(cs: seq<C>, keep: C -> bool): (kept: seq<C>)
    ensures |kept| <= |cs|
    ensures forall c :: c in kept <==> c in cs && keep(c)
  {
    if cs == [] then []
    else
      var n := |cs| - 1;
      assert cs == cs[..n] + [cs[n]];
      Retained(cs[..n], keep) + if keep(cs[n]) then [cs[n]] else []
  }

  lemma RetainedMore<C(!new)>(cs: seq<C>, c: C, keep: C -> bool)
    ensures Retained(cs + [c], keep) == if keep(c) then Retained(cs, keep) + [c] else Retained(cs, keep)
  {
    assert (cs + [c])[..|cs|] == cs;
    assert Retained(cs, keep) + [] == Retained(cs, keep);
  }

  lemma {:induction false} RetainedAll<C(!new)>(cs: seq<C>, keep: C -> bool)
    ensures |Retained(cs, keep)| == |cs| <==> forall c :: c in cs ==> keep(c)
    ensures |Retained(cs, keep)| == |cs| ==> Retained(cs, keep) == cs
  {
    hide Retained;
    if cs != [] {
      var n := |cs| - 1;
      RetainedAll(cs[..n], keep);
      RetainedMore(cs[..n], cs[n], keep);
      assert cs == cs[..n] + [cs[n]];
    }
  }

  lemma {:induction false} RetainedConcat<C(!new)>(x: seq<C>, y: seq<C>, keep: C -> bool)
    ensures Retained(x + y, keep) == Retained(x, keep) + Retained(y, keep)
  {
    hide Retained;
    if y == [] {
      assert x + y == x;
    } else {
      var n := |y| - 1;
      assert x + y == (x + y[..n]) + [y[n]] && y == y[..n] + [y[n]];
      RetainedMore(x + y[..n], y[n], keep);
      RetainedMore(y[..n], y[n], keep);
      RetainedConcat(x, y[..n], keep);
    }
  }

  lemma {:induction false} CollectedConcat<K, C>(x: seq<K>, y: seq<K>, at: K -> Option<C>)
    ensures Collected(x + y, at) == Collected(x, at) + Collected(y, at)
  {
    if y == [] {
      assert x + y == x;
    } else {
      var n := |y| - 1;
      assert (x + y)[..|x + y| - 1] == x + y[..n];
      CollectedConcat(x, y[..n], at);
    }
  }

  lemma {:induction false} CollectedLength<K, C>(ks: seq<K>, at: K -> Option<C>)
    ensures |Collected(ks, at)| <= |ks|
  {
    if ks != [] {
      CollectedLength(ks[..|ks| - 1], at);
    }
  }

  lemma {:induction false} RetainedTwice<C(!new)>(cs: seq<C>, first: C -> bool, second: C -> bool, both: C -> bool)
    requires forall c :: both(c) == (first(c) && second(c))
    ensures Retained(Retained(cs, first), second) == Retained(cs, both)
  {
    hide Retained;
    if cs == [] {
      RetainedNone(first);
      RetainedNone(second);
      RetainedNone(both);
    } else {
      var n := |cs| - 1;
      assert cs == cs[..n] + [cs[n]];
      RetainedTwice(cs[..n], first, second, both);
      RetainedMore(cs[..n], cs[n], first);
      RetainedMore(cs[..n], cs[n], both);
      RetainedMore(Retained(cs[..n], first), cs[n], second);
    }
  }

  lemma RetainedNone<C(!new)>(keep: C -> bool)
    ensures Retained([], keep) == []
  {
  }

  lemma {:induction false} RetainedSame<C(!new)>(cs: seq<C>, keep: C -> bool, other: C -> bool)
    requires forall c :: c in cs ==> keep(c) == other(c)
    ensures Retained(cs, keep) == Retained(cs, other)
  {
    hide Retained;
    if cs == [] {
      RetainedNone(keep);
      RetainedNone(other);
    } else {
      var n := |cs| - 1;
      assert cs == cs[..n] + [cs[n]];
      RetainedSame(cs[..n], keep, other);
      RetainedMore(cs[..n], cs[n], keep);
      RetainedMore(cs[..n], cs[n], other);
    }
  }

  /** What is kept of an ascending sequence ascends. */
  lemma {:induction false} RetainedAscends<K(!new)>(ks: seq<K>, keep: K -> bool, less: (K, K) -> bool)
    requires Ascends(ks, less)
    ensures Ascends(Retained(ks, keep), less)
  {
    hide Retained;
    if ks == [] {
      RetainedNone(keep);
    } else {
      var n := |ks| - 1;
      assert ks == ks[..n] + [ks[n]];
      RetainedAscends(ks[..n], keep, less);
      RetainedMore(ks[..n], ks[n], keep);
      var kept := Retained(ks[..n], keep);
      forall i | 0 <= i < |kept| ensures less(kept[i], ks[n]) {
        assert kept[i] in ks[..n];
      }
    }
  }

  /** And is what is kept of the set, ascending. */
  lemma AscendingRetained<K(!new)>(all: set<K>, some: set<K>, keep: K -> bool, less: (K, K) -> bool)
    requires StrictTotal(less) && forall k :: k in some <==> k in all && keep(k)
    ensures Retained(Ascending(all, less), keep) == Ascending(some, less)
  {
    RetainedAscends(Ascending(all, less), keep, less);
    AscendingIsUnique(Retained(Ascending(all, less), keep), Ascending(some, less), less);
  }

  lemma {:induction false} CollectedSame<K, C>(ks: seq<K>, at: K -> Option<C>, other: K -> Option<C>)
    requires forall k :: k in ks ==> at(k) == other(k)
    ensures Collected(ks, at) == Collected(ks, other)
  {
    if ks != [] {
      var n := |ks| - 1;
      assert ks == ks[..n] + [ks[n]];
      CollectedSame(ks[..n], at, other);
    }
  }

  /** Keys with nothing at them can be left out. */
  lemma {:induction false} CollectedRetained<K(!new), C>(ks: seq<K>, at: K -> Option<C>, keep: K -> bool)
    requires forall k :: k in ks && !keep(k) ==> at(k) == None
    ensures Collected(ks, at) == Collected(Retained(ks, keep), at)
  {
    hide Retained;
    if ks == [] {
      RetainedNone(keep);
    } else {
      var n := |ks| - 1;
      assert ks == ks[..n] + [ks[n]];
      CollectedRetained(ks[..n], at, keep);
      RetainedMore(ks[..n], ks[n], keep);
      CollectedMore(ks[..n], ks[n], at);
      CollectedMore(Retained(ks[..n], keep), ks[n], at);
    }
  }

  /** Keeping some of what is found is looking only where it is. */
  lemma {:induction false} RetainedCollected<K(!new), C(!new)>(ks: seq<K>, at: K -> Option<C>, keep: C -> bool, kept: K -> bool)
    requires forall k :: k in ks && at(k).Some? ==> keep(at(k).value) == kept(k)
    ensures Retained(Collected(ks, at), keep) == Collected(Retained(ks, kept), at)
  {
    hide Retained;
    if ks == [] {
      RetainedNone(keep);
      RetainedNone(kept);
    } else {
      var n := |ks| - 1;
      assert ks == ks[..n] + [ks[n]];
      RetainedCollected(ks[..n], at, keep, kept);
      RetainedMore(ks[..n], ks[n], kept);
      CollectedMore(ks[..n], ks[n], at);
      CollectedMore(Retained(ks[..n], kept), ks[n], at);
      if at(ks[n]).Some? {
        RetainedMore(Collected(ks[..n], at), at(ks[n]).value, keep);
      }
    }
  }

  // ----- indexes -----

  lemma {:induction false} IndexConcat<K, R>(x: seq<R>, y: seq<R>, key: R -> K, k: K)
    ensures Look(Index(x + y, key), k) == if k in Index(y, key) then Look(Index(y, key), k) else Look(Index(x, key), k)
  {
    if y == [] {
      assert x + y == x;
    } else {
      var n := |y| - 1;
      assert x + y == (x + y[..n]) + [y[n]] && y == y[..n] + [y[n]];
      IndexMore(x + y[..n], y[n], key);
      IndexMore(y[..n], y[n], key);
      IndexConcat(x, y[..n], key, k);
    }
  }

  /** The names either index has, in order. */
  function Names<R, S>(before: map<string, R>, after: map<string, S>): seq<string> {
    TextOrderIsTotal();
    Ascending(before.Keys + after.Keys, Less)
  }

  lemma NamesAre<R, S>(before: map<string, R>, after: map<string, S>)
    ensures NoRepeats(Names(before, after))
    ensures forall name :: name in Names(before, after) <==> name in before || name in after
  {
    TextOrderIsTotal();
    var names := Names(before, after);
    forall i, j | 0 <= i < j < |names| ensures names[i] != names[j] {
      assert Less(names[i], names[j]);
    }
  }

  lemma {:induction false} IndexHolds<K, R>(records: seq<R>, key: R -> K)
    ensures forall k :: k in Index(records, key) ==> Index(records, key)[k] in records && key(Index(records, key)[k]) == k
    ensures forall r :: r in records ==> key(r) in Index(records, key)
  {
    if records != [] {
      IndexHolds(records[..|records| - 1], key);
    }
  }

  /** Distinct keys lose no record. */
  lemma {:induction false} IndexHoldsAll<K, R>(records: seq<R>, key: R -> K, i: nat)
    requires i < |records| && forall j, k :: 0 <= j < k < |records| ==> key(records[j]) != key(records[k])
    ensures Look(Index(records, key), key(records[i])) == Some(records[i])
  {
    var n := |records| - 1;
    if i < n {
      assert records[..n][i] == records[i];
      IndexHoldsAll(records[..n], key, i);
    }
  }

  // ----- lists of changes -----

  lemma {:induction false} CollectedHolds<K(!new), C>(ks: seq<K>, at: K -> Option<C>, c: C)
    ensures c in Collected(ks, at) <==> exists k :: k in ks && at(k) == Some(c)
  {
    if ks != [] {
      var n := |ks| - 1;
      CollectedHolds(ks[..n], at, c);
      assert ks == ks[..n] + [ks[n]];
    }
  }

  function OptionMapped<C, D>(c: Option<C>, f: C -> D): Option<D> {
    match c case None => None case Some(v) => Some(f(v))
  }

  /** Two lists over the same keys correspond if they do key by key. */
  lemma {:induction false} CollectedMapped<K, C, D>(ks: seq<K>, at: K -> Option<C>, other: K -> Option<D>, f: C -> D)
    requires forall k :: k in ks ==> other(k) == OptionMapped(at(k), f)
    ensures Collected(ks, other) == Mapped(Collected(ks, at), f)
  {
    if ks != [] {
      var n := |ks| - 1;
      assert ks == ks[..n] + [ks[n]];
      CollectedMapped(ks[..n], at, other, f);
      var head, last := Collected(ks[..n], at), Listed(at(ks[n]));
      if last != [] {
        assert (head + last)[..|head|] == head;
      } else {
        assert head + last == head;
      }
    }
  }

  /** No two changes concern one identity. */
  ghost predicate Unique<K, C>(cs: seq<C>, id: C -> K) {
    forall i, j :: 0 <= i < j < |cs| ==> id(cs[i]) != id(cs[j])
  }

  /** A list holds exactly the changes there are, each once. */
  ghost predicate Lists<K(!new), C(!new)>(cs: seq<C>, ks: seq<K>, at: K -> Option<C>, id: C -> K) {
    && Unique(cs, id)
    && (forall c :: c in cs <==> exists k :: k in ks && at(k) == Some(c))
    && (forall k :: k in ks && at(k).Some? ==> id(at(k).value) == k)
  }

  ghost predicate NoRepeats<K>(ks: seq<K>) {
    forall i, j :: 0 <= i < j < |ks| ==> ks[i] != ks[j]
  }

  lemma {:induction false} CollectedIsUnique<K(!new), C(!new)>(ks: seq<K>, at: K -> Option<C>, id: C -> K)
    requires NoRepeats(ks) && forall k :: k in ks && at(k).Some? ==> id(at(k).value) == k
    ensures Unique(Collected(ks, at), id)
  {
    if ks != [] {
      var n := |ks| - 1;
      assert ks == ks[..n] + [ks[n]];
      CollectedIsUnique(ks[..n], at, id);
      forall c | c in Collected(ks[..n], at) ensures id(c) != ks[n] {
        CollectedHolds(ks[..n], at, c);
      }
    }
  }

  lemma CollectedLists<K(!new), C(!new)>(ks: seq<K>, at: K -> Option<C>, id: C -> K)
    requires NoRepeats(ks) && forall k :: k in ks && at(k).Some? ==> id(at(k).value) == k
    ensures Lists(Collected(ks, at), ks, at, id)
  {
    CollectedIsUnique(ks, at, id);
    forall c ensures c in Collected(ks, at) <==> exists k :: k in ks && at(k) == Some(c) {
      CollectedHolds(ks, at, c);
    }
  }

  lemma {:induction false} RetainedIsUnique<K, C(!new)>(cs: seq<C>, keep: C -> bool, id: C -> K)
    requires Unique(cs, id)
    ensures Unique(Retained(cs, keep), id)
  {
    if cs != [] {
      var n := |cs| - 1;
      RetainedIsUnique(cs[..n], keep, id);
      var kept := Retained(cs[..n], keep);
      forall i | 0 <= i < |kept| ensures id(kept[i]) != id(cs[n]) {
        assert kept[i] in cs[..n];
      }
    }
  }

  /** Setting some changes aside loses none of them. */
  lemma SplitLists<K(!new), C(!new)>(cs: seq<C>, keep: C -> bool, drop: C -> bool, ks: seq<K>, at: K -> Option<C>, id: C -> K)
    requires Lists(cs, ks, at, id) && forall c :: drop(c) <==> !keep(c)
    ensures Lists(Retained(cs, keep) + Retained(cs, drop), ks, at, id)
  {
    var kept, dropped := Retained(cs, keep), Retained(cs, drop);
    RetainedIsUnique(cs, keep, id);
    RetainedIsUnique(cs, drop, id);
    forall i, j | 0 <= i < |kept| && 0 <= j < |dropped| ensures id(kept[i]) != id(dropped[j]) {
      assert kept[i] in kept && dropped[j] in dropped;
      var x :| 0 <= x < |cs| && cs[x] == kept[i];
      var y :| 0 <= y < |cs| && cs[y] == dropped[j];
      assert x != y;
    }
    forall c ensures c in kept + dropped <==> c in cs {
    }
  }

  lemma ListedAt<K(!new), C(!new)>(cs: seq<C>, ks: seq<K>, at: K -> Option<C>, id: C -> K, k: K)
    requires Lists(cs, ks, at, id)
    ensures (exists c :: c in cs && id(c) == k) <==> k in ks && at(k).Some?
  {
    if k in ks && at(k).Some? {
      assert at(k).value in cs;
    }
    forall c | c in cs && id(c) == k ensures k in ks && at(k).Some? {
      var j :| j in ks && at(j) == Some(c);
    }
  }

  lemma MappedComesFrom<K(!new), C(!new)>(cs: seq<C>, ks: seq<K>, at: K -> Option<C>, f: C -> C, id: C -> K, d: C)
    requires Lists(cs, ks, at, id) && d in Mapped(cs, f)
    requires forall c :: id(f(c)) == id(c)
    ensures id(d) in ks && at(id(d)).Some?
  {
    var i :| 0 <= i < |cs| && f(cs[i]) == d;
    assert cs[i] in cs;
    var j :| j in ks && at(j) == Some(cs[i]);
  }

  /** Lists over the same keys correspond only if they do key by key, when the
      correspondence keeps identities. */
  lemma CollectedCorrespond<K(!new), C(!new)>(ks: seq<K>, at: K -> Option<C>, other: K -> Option<C>, f: C -> C, id: C -> K)
    requires Lists(Collected(ks, at), ks, at, id) && Lists(Collected(ks, other), ks, other, id)
    requires forall c :: id(f(c)) == id(c)
    ensures Collected(ks, other) == Mapped(Collected(ks, at), f)
       <==> forall k :: k in ks ==> other(k) == OptionMapped(at(k), f)
  {
    if Collected(ks, other) == Mapped(Collected(ks, at), f) {
      forall k | k in ks ensures other(k) == OptionMapped(at(k), f) {
        if at(k).Some? {
          assert at(k).value in Collected(ks, at);
          assert f(at(k).value) in Collected(ks, other) by {
            var i :| 0 <= i < |Collected(ks, at)| && Collected(ks, at)[i] == at(k).value;
            assert Mapped(Collected(ks, at), f)[i] == f(at(k).value);
          }
          var j :| j in ks && other(j) == Some(f(at(k).value));
        }
        if other(k).Some? {
          assert other(k).value in Mapped(Collected(ks, at), f);
          MappedComesFrom(Collected(ks, at), ks, at, f, id, other(k).value);
        }
      }
    } else if forall k :: k in ks ==> other(k) == OptionMapped(at(k), f) {
      CollectedMapped(ks, at, other, f);
    }
  }

  // ----- applying changes -----

  function Put<K, R>(m: map<K, R>, k: K, r: Option<R>): map<K, R> {
    match r case Some(v) => m[k := v] case None => m - {k}
  }

  /** An index after each of a list of changes has had its effect. */
  function Applied<K, R, C>(m: map<K, R>, cs: seq<C>, id: C -> K, effect: (Option<R>, C) -> Option<R>): map<K, R> {
    if cs == [] then m
    else
      var n := |cs| - 1;
      var earlier := Applied(m, cs[..n], id, effect);
      Put(earlier, id(cs[n]), effect(Look(earlier, id(cs[n])), cs[n]))
  }

  lemma {:induction false} AppliedElsewhere<K, R, C>(m: map<K, R>, cs: seq<C>, id: C -> K, effect: (Option<R>, C) -> Option<R>, k: K)
    requires forall c :: c in cs ==> id(c) != k
    ensures Look(Applied(m, cs, id, effect), k) == Look(m, k)
  {
    if cs != [] {
      AppliedElsewhere(m, cs[..|cs| - 1], id, effect, k);
    }
  }

  lemma {:induction false} AppliedAt<K, R, C>(m: map<K, R>, cs: seq<C>, id: C -> K, effect: (Option<R>, C) -> Option<R>, i: nat)
    requires i < |cs| && Unique(cs, id)
    ensures Look(Applied(m, cs, id, effect), id(cs[i])) == effect(Look(m, id(cs[i])), cs[i])
  {
    var n := |cs| - 1;
    if i < n {
      assert cs[..n][i] == cs[i];
      AppliedAt(m, cs[..n], id, effect, i);
    } else {
      AppliedElsewhere(m, cs[..n], id, effect, id(cs[i]));
    }
  }

  /** What the index holds once every listed change is applied, key by key. */
  lemma AppliedEverywhere<K(!new), R, C(!new)>(m: map<K, R>, cs: seq<C>, ks: seq<K>, at: K -> Option<C>, id: C -> K,
                                               effect: (Option<R>, C) -> Option<R>, k: K)
    requires Lists(cs, ks, at, id)
    ensures Look(Applied(m, cs, id, effect), k)
         == if k in ks && at(k).Some? then effect(Look(m, k), at(k).value) else Look(m, k)
  {
    if k in ks && at(k).Some? {
      assert at(k).value in cs;
      var i :| 0 <= i < |cs| && cs[i] == at(k).value;
      AppliedAt(m, cs, id, effect, i);
    } else {
      forall c | c in cs ensures id(c) != k {
        var j :| j in ks && at(j) == Some(c);
      }
      AppliedElsewhere(m, cs, id, effect, k);
    }
  }
}
