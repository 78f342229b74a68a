/**
 * Python's ordering of strings (code point by code point), its stable
 * `sorted(..., key=...)`, and the arbitrary iteration order of a `set`.
 */
module Order {

  /** Python's `a < b` on `str`: lexicographic by code point, a proper prefix first. */
  predicate StrLt(a: string, b: string) {
    if a == [] then b != []
    else if b == [] then false
    else if a[0] != b[0] then a[0] < b[0]
    else StrLt(a[1..], b[1..])
  }

  /** Python's `a <= b` on `str`. */
  predicate StrLe(a: string, b: string) {
    a == b || StrLt(a, b)
  }

  lemma {:induction false} StrLtIrreflexive(a: string)
    ensures !StrLt(a, a)
  {
    if a != [] {
      StrLtIrreflexive(a[1..]);
    }
  }

  lemma {:induction false} StrLtTransitive(a: string, b: string, c: string)
    requires StrLt(a, b) && StrLt(b, c)
    ensures StrLt(a, c)
  {
    if a != [] && b != [] && c != [] && a[0] == b[0] && b[0] == c[0] {
      StrLtTransitive(a[1..], b[1..], c[1..]);
    }
  }

  /** Any two different strings are ordered one way or the other. */
  lemma {:induction false} StrLtTotal(a: string, b: string)
    requires a != b
    ensures StrLt(a, b) || StrLt(b, a)
  {
    if a != [] && b != [] && a[0] == b[0] {
      assert a == [a[0]] + a[1..] && b == [b[0]] + b[1..];
      StrLtTotal(a[1..], b[1..]);
    }
  }

  lemma {:induction false} StrLtAsymmetric(a: string, b: string)
    requires StrLt(a, b)
    ensures !StrLt(b, a)
  {
    if a != [] && b != [] && a[0] == b[0] {
      StrLtAsymmetric(a[1..], b[1..]);
    }
  }

  /** `StrLe` is a total order on strings. */
  lemma StrLeTotalOrder()
    ensures forall a, b :: StrLe(a, b) || StrLe(b, a)
    ensures forall a, b, c :: StrLe(a, b) && StrLe(b, c) ==> StrLe(a, c)
    ensures forall a, b :: StrLe(a, b) && StrLe(b, a) ==> a == b
  {
    forall a, b ensures StrLe(a, b) || StrLe(b, a) {
      if a != b { StrLtTotal(a, b); }
    }
    forall a, b, c | StrLe(a, b) && StrLe(b, c) ensures StrLe(a, c) {
      if a != b && b != c { StrLtTransitive(a, b, c); }
    }
    forall a, b | StrLe(a, b) && StrLe(b, a) ensures a == b {
      if a != b { StrLtAsymmetric(a, b); }
    }
  }

  /** `le` is total and transitive: a valid sort key comparison. */
  ghost predicate TotalPreorder<T(!new)>(le: (T, T) -> bool) {
    && (forall a, b :: le(a, b) || le(b, a))
    && (forall a, b, c :: le(a, b) && le(b, c) ==> le(a, c))
  }

  /** Non-decreasing under `le`. */
  ghost predicate SortedBy<T>(s: seq<T>, le: (T, T) -> bool) {
    forall i, j :: 0 <= i < j < |s| ==> le(s[i], s[j])
  }

  /** Strictly increasing as strings (so also free of duplicates). */
  ghost predicate StrictlyIncreasing(s: seq<string>) {
    forall i, j :: 0 <= i < j < |s| ==> StrLt(s[i], s[j])
  }

  /** The elements of a sequence, as a set. */
  function Elems<T>(s: seq<T>): set<T> {
    set x | x in s
  }

  lemma ElemsAppend<T>(a: seq<T>, b: seq<T>)
    ensures Elems(a + b) == Elems(a) + Elems(b)
  {
    forall x | x in Elems(a + b) ensures x in Elems(a) + Elems(b) {
      var i :| 0 <= i < |a + b| && (a + b)[i] == x;
      if i < |a| { assert a[i] == x; } else { assert b[i - |a|] == x; }
    }
  }

  /** The elements of a prefix one longer. */
  lemma ElemsPrefixStep<T>(s: seq<T>, k: nat)
    requires k < |s|
    ensures Elems(s[..k + 1]) == Elems(s[..k]) + {s[k]}
  {
    assert s[..k + 1] == s[..k] + [s[k]];
    ElemsAppend(s[..k], [s[k]]);
  }

  lemma ElemsEmpty<T>(s: seq<T>)
    ensures Elems(s) == {} <==> s == []
  {
    if s != [] {
      assert s[0] in Elems(s);
    }
  }

  /** One possible iteration order of the set `s`: each element exactly once. */
  ghost predicate IsEnumeration<T>(e: seq<T>, s: set<T>) {
    multiset(e) == multiset(s)
  }

  /**
   * Places `x` after the last element of `xs` that is not greater than it:
   * one step of a stable insertion sort.
   */
  function Insert<T>(xs: seq<T>, x: T, le: (T, T) -> bool): (r: seq<T>)
    ensures multiset(r) == multiset(xs) + multiset{x}
  {
    if xs == [] then [x]
    else if le(xs[|xs| - 1], x) then xs + [x]
    else
      assert xs == xs[..|xs| - 1] + [xs[|xs| - 1]];
      Insert(xs[..|xs| - 1], x, le) + [xs[|xs| - 1]]
  }

  /** Python's `sorted(s, key=...)`: a stable sort of `s` under `le`. */
  function SortBy<T>(s: seq<T>, le: (T, T) -> bool): (r: seq<T>)
    ensures multiset(r) == multiset(s)
  {
    if s == [] then []
    else
      assert s == s[..|s| - 1] + [s[|s| - 1]];
      Insert(SortBy(s[..|s| - 1], le), s[|s| - 1], le)
  }

  lemma {:induction false} InsertSorted<T(!new)>(xs: seq<T>, x: T, le: (T, T) -> bool)
    requires TotalPreorder(le)
    requires SortedBy(xs, le)
    ensures SortedBy(Insert(xs, x, le), le)
  {
    if xs != [] && !le(xs[|xs| - 1], x) {
      var init, last := xs[..|xs| - 1], xs[|xs| - 1];
      InsertSorted(init, x, le);
      var r := Insert(init, x, le);
      forall i | 0 <= i < |r| ensures le(r[i], last) {
        assert r[i] in multiset(r);
        if r[i] != x {
          assert r[i] in multiset(init);
          var k :| 0 <= k < |init| && init[k] == r[i];
          assert le(xs[k], xs[|xs| - 1]);
        }
      }
    }
  }

  /** `sorted` returns a non-decreasing arrangement of its input. */
  lemma {:induction false} SortBySorted<T(!new)>(s: seq<T>, le: (T, T) -> bool)
    requires TotalPreorder(le)
    ensures SortedBy(SortBy(s, le), le)
    ensures multiset(SortBy(s, le)) == multiset(s)
  {
    if s != [] {
      SortBySorted(s[..|s| - 1], le);
      InsertSorted(SortBy(s[..|s| - 1], le), s[|s| - 1], le);
    }
  }

  /** Where `Insert` puts `x`: just after the last element of `xs` that is not greater than it. */
  function InsertPoint<T>(xs: seq<T>, x: T, le: (T, T) -> bool): (k: nat)
    ensures k <= |xs|
  {
    if xs == [] then 0
    else if le(xs[|xs| - 1], x) then |xs|
    else InsertPoint(xs[..|xs| - 1], x, le)
  }

  /**
   * `Insert` keeps `xs` in order and puts `x` at `InsertPoint`, with no
   * element after it that is not greater than `x`.
   */
  lemma {:induction false} InsertAt<T>(xs: seq<T>, x: T, le: (T, T) -> bool)
    ensures Insert(xs, x, le) == xs[..InsertPoint(xs, x, le)] + [x] + xs[InsertPoint(xs, x, le)..]
    ensures forall m :: InsertPoint(xs, x, le) <= m < |xs| ==> !le(xs[m], x)
  {
    if xs != [] && !le(xs[|xs| - 1], x) {
      var init, last := xs[..|xs| - 1], xs[|xs| - 1];
      var k := InsertPoint(init, x, le);
      InsertAt(init, x, le);
      assert InsertPoint(xs, x, le) == k;
      assert init[..k] == xs[..k];
      assert init[k..] + [last] == xs[k..];
      forall m | k <= m < |xs| ensures !le(xs[m], x) {
        if m < |init| {
          assert xs[m] == init[m];
        }
      }
    }
  }

  /** Wherever `x` and `y` occur in `t`, every `x` comes before every `y`. */
  ghost predicate Precedes<T>(t: seq<T>, x: T, y: T)
  {
    forall p, q :: 0 <= p < |t| && 0 <= q < |t| && t[p] == x && t[q] == y ==> p < q
  }

  /**
   * `sorted` is stable: of two different elements of a duplicate-free input,
   * the earlier one stays earlier when it is not greater than the later one
   * (in particular when the two are tied under the key).
   */
  lemma {:induction false} SortByStable<T>(s: seq<T>, le: (T, T) -> bool, i: nat, j: nat)
    requires forall a, b :: 0 <= a < b < |s| ==> s[a] != s[b]
    requires i < j < |s| && le(s[i], s[j])
    ensures Precedes(SortBy(s, le), s[i], s[j])
  {
    var init := s[..|s| - 1];
    if j == |s| - 1 {
      StableAgainstLast(s, le, i);
    } else {
      PrefixDistinct(s, init);
      assert init[i] == s[i] && init[j] == s[j];
      SortByStable(init, le, i, j);
      StableKept(s, le, i, j);
    }
  }

  /** The stability case where both elements come before the last one inserted. */
  lemma StableKept<T>(s: seq<T>, le: (T, T) -> bool, i: nat, j: nat)
    requires forall a, b :: 0 <= a < b < |s| ==> s[a] != s[b]
    requires i < j < |s| - 1
    requires Precedes(SortBy(s[..|s| - 1], le), s[i], s[j])
    ensures Precedes(SortBy(s, le), s[i], s[j])
  {
    var init, last := s[..|s| - 1], s[|s| - 1];
    var xs := SortBy(init, le);
    InsertAt(xs, last, le);
    SortByLast(s, le);
    InsertKeepsOrder(xs, last, InsertPoint(xs, last, le), SortBy(s, le), s[i], s[j]);
  }

  /** The stability case where the later element is the last one inserted. */
  lemma StableAgainstLast<T>(s: seq<T>, le: (T, T) -> bool, i: nat)
    requires forall a, b :: 0 <= a < b < |s| ==> s[a] != s[b]
    requires i < |s| - 1 && le(s[i], s[|s| - 1])
    ensures Precedes(SortBy(s, le), s[i], s[|s| - 1])
  {
    var init, last := s[..|s| - 1], s[|s| - 1];
    var xs := SortBy(init, le);
    var k := InsertPoint(xs, last, le);
    InsertAt(xs, last, le);
    SortByLast(s, le);
    LastNotEarlier(s, le);
    InsertedAfter(xs, s[i], last, le, k, SortBy(s, le));
  }

  /** A prefix of a duplicate-free sequence is duplicate-free. */
  lemma PrefixDistinct<T>(s: seq<T>, init: seq<T>)
    requires s != [] && init == s[..|s| - 1]
    requires forall a, b :: 0 <= a < b < |s| ==> s[a] != s[b]
    ensures forall a, b :: 0 <= a < b < |init| ==> init[a] != init[b]
  {
    forall a, b | 0 <= a < b < |init| ensures init[a] != init[b] {
      assert init[a] == s[a] && init[b] == s[b];
    }
  }

  /** In a duplicate-free input the last element is not among the sorted earlier ones. */
  lemma LastNotEarlier<T>(s: seq<T>, le: (T, T) -> bool)
    requires s != []
    requires forall a, b :: 0 <= a < b < |s| ==> s[a] != s[b]
    ensures s[|s| - 1] !in SortBy(s[..|s| - 1], le)
  {
    var init, last := s[..|s| - 1], s[|s| - 1];
    forall m | 0 <= m < |init| ensures init[m] != last {
      assert init[m] == s[m];
    }
    assert last !in multiset(init);
  }

  /** `SortBy` inserts the last element into the sorted prefix. */
  lemma SortByLast<T>(s: seq<T>, le: (T, T) -> bool)
    requires s != []
    ensures SortBy(s, le) == Insert(SortBy(s[..|s| - 1], le), s[|s| - 1], le)
  {
  }

  /** An element of `xs` not greater than the inserted one comes before it. */
  lemma InsertedAfter<T>(xs: seq<T>, x: T, y: T, le: (T, T) -> bool, k: nat, t: seq<T>)
    requires k <= |xs| && t == xs[..k] + [y] + xs[k..] && y !in xs
    requires forall m :: k <= m < |xs| ==> !le(xs[m], y)
    requires le(x, y) && x != y
    ensures Precedes(t, x, y)
  {
    forall p, q | 0 <= p < |t| && 0 <= q < |t| && t[p] == x && t[q] == y ensures p < q {
      InsertedAt(xs, y, k, t, q);
      InsertIndex(xs, y, k, t, p);
    }
  }

  /** Inserting a new element keeps the order of two elements already there. */
  lemma InsertKeepsOrder<T>(xs: seq<T>, y: T, k: nat, t: seq<T>, a: T, b: T)
    requires k <= |xs| && t == xs[..k] + [y] + xs[k..]
    requires a != y && b != y
    requires Precedes(xs, a, b)
    ensures Precedes(t, a, b)
  {
    forall p, q | 0 <= p < |t| && 0 <= q < |t| && t[p] == a && t[q] == b ensures p < q {
      var p' := if p < k then p else p - 1;
      var q' := if q < k then q else q - 1;
      assert p != k && q != k;
      assert xs[p'] == a && xs[q'] == b;
    }
  }

  /** The inserted element sits only at the insertion point when `xs` does not hold it. */
  lemma InsertedAt<T>(xs: seq<T>, x: T, k: nat, t: seq<T>, q: nat)
    requires k <= |xs| && t == xs[..k] + [x] + xs[k..] && x !in xs
    requires q < |t| && t[q] == x
    ensures q == k
  {
    InsertIndex(xs, x, k, t, q);
  }

  /** What sits at index `q` after inserting `x` at `k`. */
  lemma InsertIndex<T>(xs: seq<T>, x: T, k: nat, t: seq<T>, q: nat)
    requires k <= |xs| && t == xs[..k] + [x] + xs[k..] && q < |t|
    ensures q < k ==> t[q] == xs[q]
    ensures q == k ==> t[q] == x
    ensures q > k ==> t[q] == xs[q - 1]
  {
  }

  /** An enumeration lists the set's elements, each once. */
  lemma EnumerationFacts<T>(e: seq<T>, s: set<T>)
    requires IsEnumeration(e, s)
    ensures |e| == |s|
    ensures Elems(e) == s
    ensures forall i, j :: 0 <= i < j < |e| ==> e[i] != e[j]
  {
    assert |multiset(e)| == |e|;
    assert |multiset(s)| == |s|;
    forall x ensures x in e <==> x in s {
      assert x in e <==> x in multiset(e);
    }
    forall i, j | 0 <= i < j < |e| ensures e[i] != e[j] {
      var x := e[i];
      assert e == e[..j] + e[j..];
      assert e[..j][i] == x;
      assert multiset(e)[e[j]] == multiset(e[..j])[e[j]] + multiset(e[j..])[e[j]];
      assert multiset(e[j..])[e[j]] >= 1 by { assert e[j..][0] == e[j]; }
      assert multiset(e)[e[j]] <= 1;
    }
  }

  /** The elements of a set in an arbitrary order, as Python's `for x in s` visits them. */
  method Enumerate<T>(s: set<T>) returns (e: seq<T>)
    ensures IsEnumeration(e, s)
  {
    e := [];
    var rest := s;
    while rest != {}
      invariant rest <= s
      invariant multiset(e) == multiset(s - rest)
      decreases |rest|
    {
      var x :| x in rest;
      assert s - (rest - {x}) == (s - rest) + {x};
      e := e + [x];
      rest := rest - {x};
    }
    assert s - rest == s;
  }

  /** Python's `sorted(s)` for a set of strings: its elements in strictly increasing order. */
  method SortedSet(s: set<string>) returns (r: seq<string>)
    ensures StrictlyIncreasing(r)
    ensures Elems(r) == s
  {
    var e := Enumerate(s);
    StrLeTotalOrder();
    r := SortBy(e, StrLe);
    SortBySorted(e, StrLe);
    EnumerationFacts(r, s);
    forall i, j | 0 <= i < j < |r| ensures StrLt(r[i], r[j]) {
      assert StrLe(r[i], r[j]) && r[i] != r[j];
    }
  }

  /** There is only one strictly increasing listing of a set: `sorted` on a set is deterministic. */
  lemma {:induction false} StrictlyIncreasingUnique(a: seq<string>, b: seq<string>)
    requires StrictlyIncreasing(a) && StrictlyIncreasing(b)
    requires Elems(a) == Elems(b)
    ensures a == b
  {
    if a != [] && b != [] {
      assert a[0] == b[0] by {
        if a[0] != b[0] {
          assert a[0] in Elems(a) && b[0] in Elems(b);
          var i :| 0 <= i < |b| && b[i] == a[0];
          var j :| 0 <= j < |a| && a[j] == b[0];
          assert StrLt(b[0], a[0]) by { if i != 0 { assert StrLt(b[0], b[i]); } }
          assert StrLt(a[0], b[0]) by { if j != 0 { assert StrLt(a[0], a[j]); } }
          StrLtAsymmetric(a[0], b[0]);
        }
      }
      forall x ensures x in a[1..] <==> x in b[1..] {
        if x in a[1..] {
          var k :| 1 <= k < |a| && a[k] == x;
          assert StrLt(a[0], x);
          StrLtIrreflexive(x);
          assert x in Elems(a);
          assert x in b && x != b[0];
        }
        if x in b[1..] {
          var k :| 1 <= k < |b| && b[k] == x;
          assert StrLt(b[0], x);
          StrLtIrreflexive(x);
          assert x in Elems(b);
          assert x in a && x != a[0];
        }
      }
      StrictlyIncreasingUnique(a[1..], b[1..]);
      assert a == [a[0]] + a[1..] && b == [b[0]] + b[1..];
    } else {
      ElemsEmpty(a);
      ElemsEmpty(b);
    }
  }
}
