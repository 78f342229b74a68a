/**
 * What the three report writers share: the section header, the column
 * width (`max(len(...))`), the joining of written lines, and the step
 * `sorted(set(results), key=...)`. Python visits a set in an order that
 * depends on string hashing; the model takes that order as an
 * enumeration of the set (each element once, in any order).
 */
module Report {
  import opened Text
  import opened Order
  import opened Scan

  /** A record of url-js.py and re-api-dir.py: a matched path and its category. */
  datatype Entry = Entry(path: string, category: string)

  /** `key=lambda x: x[0]`: entries compare by path only. */
  predicate ByPath(a: Entry, b: Entry) {
    StrLe(a.path, b.path)
  }

  function Paths(rs: seq<Entry>): (ps: seq<string>)
    ensures |ps| == |rs| && forall i :: 0 <= i < |rs| ==> ps[i] == rs[i].path
  {
    seq(|rs|, i requires 0 <= i < |rs| => rs[i].path)
  }

  lemma ByPathPreorder()
    ensures TotalPreorder(ByPath)
  {
    StrLeTotalOrder();
  }

  /** The line that opens a group's section. */
  function Header(group: string): string {
    "===== " + group + " =====\n"
  }

  /** `max(len(x) for x in xs)`, and 0 for no element. */
  function MaxLen(xs: seq<string>): (m: nat)
    ensures forall i :: 0 <= i < |xs| ==> |xs[i]| <= m
    ensures xs == [] ==> m == 0
    ensures xs != [] ==> exists i :: 0 <= i < |xs| && |xs[i]| == m
  {
    if xs == [] then 0
    else
      var m0 := MaxLen(xs[..|xs| - 1]);
      if |xs[|xs| - 1]| > m0 then |xs[|xs| - 1]| else m0
  }

  /** The text of several `f.write` calls, in order. */
  function Concat(parts: seq<string>): string {
    if parts == [] then "" else Concat(parts[..|parts| - 1]) + parts[|parts| - 1]
  }

  lemma ConcatPair(x: string, y: string)
    ensures Concat([x, y]) == x + y
  {
    assert [x, y][..1] == [x];
    assert [x][..0] == [];
    assert Concat([x]) == "" + x;
  }

  /**
   * A section written as header, lines and one more line end starts with
   * the header and, when its last line ends a line, ends with a blank line.
   */
  lemma {:induction false} SectionFrame(h: string, rows: seq<string>)
    requires rows != [] && EndsWith(rows[|rows| - 1], "\n")
    ensures StartsWith(h + Concat(rows) + "\n", h)
    ensures EndsWith(h + Concat(rows) + "\n", "\n\n")
  {
    var c := Concat(rows);
    var last := rows[|rows| - 1];
    assert c == Concat(rows[..|rows| - 1]) + last;
    assert c[|c| - 1] == last[|last| - 1] == '\n';
    var t := h + c + "\n";
    assert t[..|h|] == h;
    assert t[|t| - 2] == c[|c| - 1];
    assert t[|t| - 2..] == "\n\n";
  }

  /** Two different lines of one length, written in the two orders, give two different texts. */
  lemma TieSectionsDiffer(h: string, ra: string, rb: string)
    requires |ra| == |rb| && ra != rb
    ensures h + (ra + rb) + "\n" != h + (rb + ra) + "\n"
  {
    var i :| 0 <= i < |ra| && ra[i] != rb[i];
    assert (h + (ra + rb) + "\n")[|h| + i] == ra[i];
    assert (h + (rb + ra) + "\n")[|h| + i] == rb[i];
  }

  /** Writing one more part after `prefix` and the first `i` parts. */
  lemma ConcatStep(prefix: string, parts: seq<string>, i: nat)
    requires i < |parts|
    ensures prefix + Concat(parts[..i + 1]) == (prefix + Concat(parts[..i])) + parts[i]
  {
    assert parts[..i + 1][..i] == parts[..i];
  }

  /** No group of `table` matched anything exactly when none of its first groups did and its last did not. */
  lemma NoneMatchedStep<R>(table: seq<Group>, init: seq<Group>, results: map<string, seq<R>>)
    requires table != [] && init == table[..|table| - 1]
    requires forall t :: 0 <= t < |table| ==> table[t].name in results
    ensures (forall t :: 0 <= t < |table| ==> results[table[t].name] == [])
        <==> (forall t :: 0 <= t < |init| ==> results[init[t].name] == []) && results[table[|table| - 1].name] == []
  {
    forall t | 0 <= t < |init| ensures init[t] == table[t] { }
  }

  /**
   * `orders[t]` is one iteration order of the set of group `t`'s list:
   * the orders the writer's `set(results)` visits.
   */
  ghost predicate Enumerates<R>(table: seq<Group>, results: map<string, seq<R>>, orders: seq<seq<R>>) {
    && |orders| == |table|
    && forall t :: 0 <= t < |table| ==> table[t].name in results && IsEnumeration(orders[t], Elems(results[table[t].name]))
  }

  /** An iteration order of the set of a list is empty exactly when the list is. */
  lemma EnumerationEmpty<R>(rs: seq<R>, order: seq<R>)
    requires IsEnumeration(order, Elems(rs))
    ensures order == [] <==> rs == []
  {
    EnumerationFacts(order, Elems(rs));
    ElemsEmpty(rs);
  }

  /** The two iteration orders of a two-element set. */
  lemma PairEnumerations<T>(a: T, b: T)
    requires a != b
    ensures IsEnumeration([a, b], Elems([a, b])) && IsEnumeration([b, a], Elems([a, b]))
  {
    assert Elems([a, b]) == {a, b};
    assert multiset([b, a]) == multiset{a, b};
  }

  /**
   * `sorted(set(results), key=...)`: whatever order the set is visited in,
   * the result is sorted by the key and holds each distinct record once.
   */
  lemma SortedEnumeration<T(!new)>(order: seq<T>, s: set<T>, le: (T, T) -> bool)
    requires TotalPreorder(le)
    requires IsEnumeration(order, s)
    ensures SortedBy(SortBy(order, le), le)
    ensures IsEnumeration(SortBy(order, le), s)
    ensures |SortBy(order, le)| == |s| && Elems(SortBy(order, le)) == s
    ensures forall i, j :: 0 <= i < j < |SortBy(order, le)| ==> SortBy(order, le)[i] != SortBy(order, le)[j]
  {
    SortBySorted(order, le);
    EnumerationFacts(SortBy(order, le), s);
  }

  /**
   * Two sorted arrangements of the same records are equal when no two
   * different records are tied under the key.
   */
  lemma {:induction false} SortedUnique<T(!new)>(a: seq<T>, b: seq<T>, le: (T, T) -> bool)
    requires SortedBy(a, le) && SortedBy(b, le)
    requires multiset(a) == multiset(b)
    requires forall x, y :: x in a && y in a && le(x, y) && le(y, x) ==> x == y
    ensures a == b
  {
    if a == [] {
      assert |multiset(b)| == 0;
    } else {
      assert |multiset(b)| == |a|;
      SameHead(a, b, le);
      var a', b' := a[1..], b[1..];
      assert a == [a[0]] + a' && b == [b[0]] + b';
      assert multiset(a') == multiset(a) - multiset{a[0]};
      assert multiset(b') == multiset(b) - multiset{b[0]};
      SortedTail(a, le);
      SortedTail(b, le);
      assert forall x :: x in a' ==> x in a;
      SortedUnique(a', b', le);
    }
  }

  lemma SameHead<T(!new)>(a: seq<T>, b: seq<T>, le: (T, T) -> bool)
    requires a != [] && b != []
    requires SortedBy(a, le) && SortedBy(b, le)
    requires multiset(a) == multiset(b)
    requires forall x, y :: x in a && y in a && le(x, y) && le(y, x) ==> x == y
    ensures a[0] == b[0]
  {
    assert a[0] in multiset(b) && b[0] in multiset(a);
    var i :| 0 <= i < |b| && b[i] == a[0];
    var j :| 0 <= j < |a| && a[j] == b[0];
    if i != 0 && j != 0 {
      assert le(b[0], b[i]) && le(a[0], a[j]);
    }
  }

  lemma SortedTail<T>(a: seq<T>, le: (T, T) -> bool)
    requires a != [] && SortedBy(a, le)
    ensures SortedBy(a[1..], le)
  {
    forall i, j | 0 <= i < j < |a| - 1 ensures le(a[1..][i], a[1..][j]) {
      assert a[1..][i] == a[i + 1] && a[1..][j] == a[j + 1];
    }
  }

  /**
   * Sorting two iteration orders of one set gives the same list when the
   * key ties no two different records: the report is then independent of
   * the set's iteration order.
   */
  lemma SortIgnoresOrder<T(!new)>(o1: seq<T>, o2: seq<T>, s: set<T>, le: (T, T) -> bool)
    requires TotalPreorder(le)
    requires IsEnumeration(o1, s) && IsEnumeration(o2, s)
    requires forall x, y :: x in s && y in s && le(x, y) && le(y, x) ==> x == y
    ensures SortBy(o1, le) == SortBy(o2, le)
  {
    SortedEnumeration(o1, s, le);
    SortedEnumeration(o2, s, le);
    SortedUnique(SortBy(o1, le), SortBy(o2, le), le);
  }
}
