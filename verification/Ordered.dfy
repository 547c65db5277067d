// Total orders, and the ascending sequence of a finite set: the order in which
// the source's ordered maps and sets are walked.
module Ordered {

  ghost predicate StrictTotal<K(!new)>(less: (K, K) -> bool) {
    && (forall a :: !less(a, a))
    && (forall a, b :: a == b || less(a, b) || less(b, a))
    && (forall a, b, c :: less(a, b) && less(b, c) ==> less(a, c))
  }

  lemma {:induction false} LeastExists<K(!new)>(keys: set<K>, less: (K, K) -> bool)
    requires StrictTotal(less) && keys != {}
    ensures exists k :: k in keys && forall j :: j in keys ==> j == k || less(k, j)
    decreases |keys|
  {
    var x :| x in keys;
    var rest := keys - {x};
    if rest == {} {
      assert forall j :: j in keys && j != x ==> j in rest;
    } else {
      LeastExists(rest, less);
      var k :| k in rest && forall j :: j in rest ==> j == k || less(k, j);
      var least := if less(x, k) then x else k;
      assert forall j :: j in keys ==> j == x || j in rest;
      assert least in keys && forall j :: j in keys ==> j == least || less(least, j);
    }
  }

  ghost predicate Ascends<K>(ks: seq<K>, less: (K, K) -> bool) {
    forall i, j :: 0 <= i < j < |ks| ==> less(ks[i], ks[j])
  }

  /** The elements of a set, smallest first. */
  function Ascending<K(!new, ==)>(keys: set<K>, less: (K, K) -> bool): (ks: seq<K>)
    requires StrictTotal(less)
    ensures Ascends(ks, less)
    ensures forall k :: k in ks <==> k in keys
    decreases |keys|
  {
    if keys == {} then []
    else
      LeastExists(keys, less);
      var k :| k in keys && forall j :: j in keys ==> j == k || less(k, j);
      var rest := Ascending(keys - {k}, less);
      assert forall i :: 0 <= i < |rest| ==> rest[i] in rest;
      [k] + rest
  }

  /** Text order: by the first character that differs, a prefix first. */
  predicate Less(a: string, b: string) {
    b != [] && (a == [] || a[0] < b[0] || (a[0] == b[0] && Less(a[1..], b[1..])))
  }

  lemma {:induction false} LessIrreflexive(a: string)
    ensures !Less(a, a)
  {
    if a != [] {
      LessIrreflexive(a[1..]);
    }
  }

  lemma {:induction false} LessTotal(a: string, b: string)
    ensures a == b || Less(a, b) || Less(b, a)
  {
    if a != [] && b != [] && a[0] == b[0] {
      LessTotal(a[1..], b[1..]);
      assert a[1..] == b[1..] ==> a == [a[0]] + a[1..] == [b[0]] + b[1..] == b;
    }
  }

  lemma {:induction false} LessTransitive(a: string, b: string, c: string)
    requires Less(a, b) && Less(b, c)
    ensures Less(a, c)
  {
    if a != [] && a[0] == b[0] == c[0] {
      LessTransitive(a[1..], b[1..], c[1..]);
    }
  }

  lemma TextOrderIsTotal()
    ensures StrictTotal(Less)
  {
    forall a: string ensures !Less(a, a) { LessIrreflexive(a); }
    forall a: string, b: string ensures a == b || Less(a, b) || Less(b, a) { LessTotal(a, b); }
    forall a: string, b: string, c: string | Less(a, b) && Less(b, c) ensures Less(a, c) {
      LessTransitive(a, b, c);
    }
  }

  /** Text with heads of one length is ordered by the heads first. */
  lemma {:induction false} LessByHead(x: string, s: string, y: string, t: string)
    requires |x| == |y|
    ensures Less(x + s, y + t) <==> Less(x, y) || (x == y && Less(s, t))
  {
    if x == [] {
      assert x + s == s && y + t == t;
    } else {
      assert (x + s)[1..] == x[1..] + s && (y + t)[1..] == y[1..] + t;
      LessByHead(x[1..], s, y[1..], t);
      assert x == [x[0]] + x[1..] && y == [y[0]] + y[1..];
    }
  }

  /** Everything between a prefix and a text that has it, has it too: the keys
      with one prefix are a contiguous range that begins at the prefix. */
  lemma {:induction false} PrefixRange(p: string, a: string, b: string)
    requires (a == p || Less(p, a)) && Less(a, b) && p <= b
    ensures p <= a
  {
    if p != [] {
      if a[0] == b[0] {
        assert p[1..] <= b[1..];
        PrefixRange(p[1..], a[1..], b[1..]);
        assert p == [p[0]] + p[1..] && a == [a[0]] + a[1..];
      }
    }
  }

  /** A prefix comes before everything that extends it. */
  lemma {:induction false} PrefixIsLess(p: string, a: string)
    requires p <= a
    ensures a == p || Less(p, a)
  {
    if p != [] {
      assert p[1..] <= a[1..];
      PrefixIsLess(p[1..], a[1..]);
      assert p == [p[0]] + p[1..] && a == [a[0]] + a[1..];
    }
  }

  /** Pairs by their first half, then by their second. */
  predicate PairLess<A(==), B>(first: (A, A) -> bool, second: (B, B) -> bool, x: (A, B), y: (A, B)) {
    first(x.0, y.0) || (x.0 == y.0 && second(x.1, y.1))
  }

  function Lexicographic<A(==), B>(first: (A, A) -> bool, second: (B, B) -> bool): ((A, B), (A, B)) -> bool {
    (x, y) => PairLess(first, second, x, y)
  }

  lemma LexicographicIsTotal<A(!new), B(!new)>(first: (A, A) -> bool, second: (B, B) -> bool)
    requires StrictTotal(first) && StrictTotal(second)
    ensures StrictTotal(Lexicographic(first, second))
  {
    var less := Lexicographic(first, second);
    forall x: (A, B) ensures !less(x, x) {
      assert !PairLess(first, second, x, x);
    }
    forall x: (A, B), y: (A, B) ensures x == y || less(x, y) || less(y, x) {
      assert x == y || PairLess(first, second, x, y) || PairLess(first, second, y, x);
    }
    forall x: (A, B), y: (A, B), z: (A, B) | less(x, y) && less(y, z) ensures less(x, z) {
      assert PairLess(first, second, x, z);
    }
  }

  lemma Ahead<K(!new)>(a: seq<K>, less: (K, K) -> bool, k: K)
    requires StrictTotal(less) && Ascends(a, less) && a != []
    ensures k in a[1..] <==> k in a && k != a[0]
  {
    assert a == [a[0]] + a[1..];
    if k in a[1..] {
      var i :| 0 <= i < |a[1..]| && a[1..][i] == k;
      assert less(a[0], a[i + 1]);
    }
  }

  lemma FirstIsMember<K>(a: seq<K>)
    ensures a != [] ==> a[0] in a
  {
  }

  /** One ascending sequence per set. */
  lemma {:induction false} AscendingIsUnique<K(!new)>(a: seq<K>, b: seq<K>, less: (K, K) -> bool)
    requires StrictTotal(less) && Ascends(a, less) && Ascends(b, less)
    requires forall k :: k in a <==> k in b
    ensures a == b
  {
    FirstIsMember(a);
    FirstIsMember(b);
    if a != [] {
      assert a[0] in b;
      var i :| 0 <= i < |b| && b[i] == a[0];
      var j :| 0 <= j < |a| && a[j] == b[0];
      assert a[0] == b[0];
      forall k ensures k in a[1..] <==> k in b[1..] {
        Ahead(a, less, k);
        Ahead(b, less, k);
      }
      AscendingIsUnique(a[1..], b[1..], less);
      assert a == [a[0]] + a[1..] && b == [b[0]] + b[1..];
    }
  }
}
