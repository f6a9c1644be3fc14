/** Orders, lexicographic keys and the stable sort that `sorted(...)` stands for in the
    source. The sort is an insertion sort that puts an element before its equals, so two
    elements with equal keys keep their input order, as Python's `sorted` promises. */
module Ordering {

  ghost predicate Total<T(!new)>(leq: (T, T) -> bool) {
    forall x, y :: leq(x, y) || leq(y, x)
  }

  ghost predicate Transitive<T(!new)>(leq: (T, T) -> bool) {
    forall x, y, z :: leq(x, y) && leq(y, z) ==> leq(x, z)
  }

  /** No ties among the elements of s. */
  ghost predicate NoTies<T(!new)>(s: seq<T>, leq: (T, T) -> bool) {
    forall x, y :: x in s && y in s && leq(x, y) && leq(y, x) ==> x == y
  }

  ghost predicate Sorted<T>(s: seq<T>, leq: (T, T) -> bool) {
    forall i, j :: 0 <= i < j < |s| ==> leq(s[i], s[j])
  }

  ghost predicate Distinct<T>(s: seq<T>) {
    forall i, j :: 0 <= i < j < |s| ==> s[i] != s[j]
  }

  function Insert<T>(x: T, s: seq<T>, leq: (T, T) -> bool): (r: seq<T>)
    ensures multiset(r) == multiset(s) + multiset{x}
    ensures |r| == |s| + 1
  {
    if s == [] then [x]
    else if leq(x, s[0]) then [x] + s
    else
      assert s == [s[0]] + s[1..];
      [s[0]] + Insert(x, s[1..], leq)
  }

  function Sort<T>(s: seq<T>, leq: (T, T) -> bool): (r: seq<T>)
    ensures multiset(r) == multiset(s)
    ensures |r| == |s|
  {
    if s == [] then []
    else
      assert s == [s[0]] + s[1..];
      Insert(s[0], Sort(s[1..], leq), leq)
  }

  lemma {:induction false} InsertSorted<T(!new)>(x: T, s: seq<T>, leq: (T, T) -> bool)
    requires Total(leq) && Transitive(leq) && Sorted(s, leq)
    ensures Sorted(Insert(x, s, leq), leq)
  {
    if s != [] && !leq(x, s[0]) {
      InsertSorted(x, s[1..], leq);
      var r := Insert(x, s[1..], leq);
      forall y | y in r ensures leq(s[0], y) {
        assert y in multiset(r);
        assert y == x || y in s[1..];
      }
    } else if s != [] {
      forall y | y in s ensures leq(x, y) {
        var k :| 0 <= k < |s| && s[k] == y;
        assert k == 0 || leq(s[0], s[k]);
      }
    }
  }

  /** The sort sorts. */
  lemma {:induction false} SortSorted<T(!new)>(s: seq<T>, leq: (T, T) -> bool)
    requires Total(leq) && Transitive(leq)
    ensures Sorted(Sort(s, leq), leq)
  {
    if s == [] {
    } else {
      SortSorted(s[1..], leq);
      InsertSorted(s[0], Sort(s[1..], leq), leq);
    }
  }

  /** An already sorted sequence is its own sort: the sort never disturbs equals. */
  lemma {:induction false} SortOfSorted<T(!new)>(s: seq<T>, leq: (T, T) -> bool)
    requires Sorted(s, leq)
    ensures Sort(s, leq) == s
  {
    if s == [] {
    } else {
      SortOfSorted(s[1..], leq);
      if |s| > 1 {
        assert leq(s[0], s[1]);
      }
    }
  }

  /** The elements of one class, in order. */
  function Keep<T>(s: seq<T>, kind: T -> bool): seq<T> {
    if s == [] then [] else (if kind(s[0]) then [s[0]] else []) + Keep(s[1..], kind)
  }

  lemma KeepCons<T>(x: T, s: seq<T>, kind: T -> bool)
    ensures Keep([x] + s, kind) == (if kind(x) then [x] else []) + Keep(s, kind)
  {
    assert ([x] + s)[1..] == s;
  }

  lemma EmptyMiddle<T>(a: seq<T>, b: seq<T>, c: seq<T>)
    requires a == [] || b == []
    ensures a + (b + c) == b + (a + c)
  {
  }

  lemma {:induction false} InsertStable<T(!new)>(x: T, s: seq<T>, leq: (T, T) -> bool, kind: T -> bool)
    requires kind(x) ==> forall y :: y in s && kind(y) ==> leq(x, y)
    ensures Keep(Insert(x, s, leq), kind) == (if kind(x) then [x] else []) + Keep(s, kind)
  {
    if s == [] || leq(x, s[0]) {
      KeepCons(x, s, kind);
    } else {
      var tail, inserted := s[1..], Insert(x, s[1..], leq);
      InsertStable(x, tail, leq, kind);
      KeepCons(s[0], inserted, kind);
      EmptyMiddle(if kind(s[0]) then [s[0]] else [], if kind(x) then [x] else [], Keep(tail, kind));
    }
  }

  /** The sort is stable: elements that tie keep their input order. */
  lemma {:induction false} SortStable<T(!new)>(s: seq<T>, leq: (T, T) -> bool, kind: T -> bool)
    requires forall x, y :: kind(x) && kind(y) ==> leq(x, y)
    ensures Keep(Sort(s, leq), kind) == Keep(s, kind)
  {
    if s == [] {
    } else {
      SortStable(s[1..], leq, kind);
      InsertStable(s[0], Sort(s[1..], leq), leq, kind);
    }
  }

  lemma HeadIsLeast<T(!new)>(a: seq<T>, y: T, leq: (T, T) -> bool)
    requires Total(leq) && Sorted(a, leq) && y in multiset(a)
    ensures a != [] && leq(a[0], y)
  {
    var k :| 0 <= k < |a| && a[k] == y;
    assert leq(y, y);
  }

  lemma TailWithout<T>(a: seq<T>)
    requires a != []
    ensures a == [a[0]] + a[1..] && multiset(a[1..]) == multiset(a) - multiset{a[0]}
  {
    assert a == [a[0]] + a[1..];
  }

  lemma SameHead<T(!new)>(a: seq<T>, b: seq<T>, leq: (T, T) -> bool)
    requires NoTies(a, leq) && Total(leq) && a != [] && b != []
    requires Sorted(a, leq) && Sorted(b, leq) && multiset(a) == multiset(b)
    ensures a[0] == b[0]
  {
    assert a[0] in multiset(b) && b[0] in multiset(a);
    HeadIsLeast(a, b[0], leq);
    HeadIsLeast(b, a[0], leq);
  }

  /** Under a total order without ties a multiset has just one sorted arrangement. */
  lemma {:induction false} SortedUnique<T(!new)>(a: seq<T>, b: seq<T>, leq: (T, T) -> bool)
    requires NoTies(a, leq) && Total(leq)
    requires Sorted(a, leq) && Sorted(b, leq) && multiset(a) == multiset(b)
    ensures a == b
  {
    assert |a| == |multiset(a)| == |multiset(b)| == |b|;
    if a != [] {
      SameHead(a, b, leq);
      TailWithout(a);
      TailWithout(b);
      SortedUnique(a[1..], b[1..], leq);
    }
  }

  /** Sorting forgets the input order when keys have no ties. */
  lemma SortForgetsInputOrder<T(!new)>(a: seq<T>, b: seq<T>, leq: (T, T) -> bool)
    requires NoTies(a, leq) && Total(leq) && Transitive(leq)
    requires multiset(a) == multiset(b)
    ensures Sort(a, leq) == Sort(b, leq)
  {
    SortSorted(a, leq);
    SortSorted(b, leq);
    forall x, y | x in Sort(a, leq) && y in Sort(a, leq) && leq(x, y) && leq(y, x) ensures x == y {
      assert x in multiset(Sort(a, leq)) && y in multiset(Sort(a, leq));
      assert x in multiset(a) && y in multiset(a);
    }
    SortedUnique(Sort(a, leq), Sort(b, leq), leq);
  }

  /** Rearranging a duplicate-free sequence keeps it duplicate-free. */
  lemma DistinctPermuted<T>(a: seq<T>, b: seq<T>)
    requires Distinct(a) && multiset(a) == multiset(b)
    ensures Distinct(b)
  {
    forall i, j | 0 <= i < j < |b| ensures b[i] != b[j] {
      if b[i] == b[j] {
        CountTwice(b, i, j);
        CountOnce(a, b[i]);
      }
    }
  }

  /** Elements whose keys differ pairwise keep pairwise different keys in any rearrangement. */
  lemma KeysDistinctPermuted<T, K>(a: seq<T>, b: seq<T>, key: T -> K)
    requires multiset(a) == multiset(b)
    requires forall i, j :: 0 <= i < j < |a| ==> key(a[i]) != key(a[j])
    ensures forall i, j :: 0 <= i < j < |b| ==> key(b[i]) != key(b[j])
  {
    forall i, j | 0 <= i < j < |a| ensures a[i] != a[j] {
      assert key(a[i]) != key(a[j]);
    }
    DistinctPermuted(a, b);
    forall i, j | 0 <= i < j < |b| ensures key(b[i]) != key(b[j]) {
      assert b[i] in multiset(a) && b[j] in multiset(a);
      var p :| 0 <= p < |a| && a[p] == b[i];
      var q :| 0 <= q < |a| && a[q] == b[j];
      assert p < q || q < p;
    }
  }

  lemma {:induction false} CountOnce<T>(a: seq<T>, x: T)
    requires Distinct(a)
    ensures multiset(a)[x] <= 1
  {
    if a == [] {
    } else {
      assert a == [a[0]] + a[1..];
      CountOnce(a[1..], x);
      if a[0] == x {
        assert x !in a[1..];
      }
    }
  }

  lemma CountTwice<T>(b: seq<T>, i: nat, j: nat)
    requires i < j < |b| && b[i] == b[j]
    ensures multiset(b)[b[i]] >= 2
  {
    assert b == b[..i] + [b[i]] + b[i + 1..j] + [b[j]] + b[j + 1..];
    assert multiset(b) ==
           multiset(b[..i]) + multiset{b[i]} + multiset(b[i + 1..j]) + multiset{b[j]} + multiset(b[j + 1..]);
  }

  /** Python's order on strings: by the first differing character, a prefix first. */
  predicate StringLeq(a: string, b: string) {
    if a == [] then true
    else if b == [] then false
    else a[0] < b[0] || (a[0] == b[0] && StringLeq(a[1..], b[1..]))
  }

  lemma {:induction false} StringTotal(a: string, b: string)
    ensures StringLeq(a, b) || StringLeq(b, a)
    ensures StringLeq(a, b) && StringLeq(b, a) ==> a == b
  {
    if a != [] && b != [] {
      StringTotal(a[1..], b[1..]);
      assert a == [a[0]] + a[1..] && b == [b[0]] + b[1..];
    }
  }

  lemma {:induction false} StringTransitive(a: string, b: string, c: string)
    requires StringLeq(a, b) && StringLeq(b, c)
    ensures StringLeq(a, c)
  {
    if a != [] && b != [] && c != [] && a[0] == b[0] == c[0] {
      StringTransitive(a[1..], b[1..], c[1..]);
    }
  }

  /** The queue without whoever goes by this name. */
  function Without<A>(s: seq<A>, name: A -> string, id: string): seq<A> {
    if s == [] then []
    else (if name(s[0]) == id then [] else [s[0]]) + Without(s[1..], name, id)
  }
}
