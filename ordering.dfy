/** The orders in which the report walks its containers: `std::map<std::string, …>`
    iterates its keys in `std::string` order and `std::set<unsigned short>`
    its elements in numeric order. Both are strict total orders; walking a
    finite set in such an order yields the set's unique sorted sequence. */
module Ordering {

  ghost predicate StrictTotalOrder<T(!new)>(lt: (T, T) -> bool) {
    && (forall x :: !lt(x, x))
    && (forall x, y, z :: lt(x, y) && lt(y, z) ==> lt(x, z))
    && (forall x, y :: x != y ==> lt(x, y) || lt(y, x))
  }

  ghost predicate StrictlySorted<T(!new)>(s: seq<T>, lt: (T, T) -> bool) {
    forall i, j :: 0 <= i < j < |s| ==> lt(s[i], s[j])
  }

  ghost predicate IsLeast<T(!new)>(m: T, s: set<T>, lt: (T, T) -> bool) {
    m in s && forall y :: y in s && y != m ==> lt(m, y)
  }

  /** `std::string`'s `operator<`: lexicographic comparison, character by
      character, a proper prefix coming first. */
  predicate StringLess(a: string, b: string)
    ensures StringLess(a, b) ==> a != b
    ensures |a| < |b| && a == b[..|a|] ==> StringLess(a, b)
  {
    if |a| == 0 then |b| > 0
    else if |b| == 0 then false
    else a[0] < b[0] || (a[0] == b[0] && StringLess(a[1..], b[1..]))
  }

  lemma {:induction false} StringLessIrreflexive(a: string)
    ensures !StringLess(a, a)
  {
    if |a| > 0 {
      StringLessIrreflexive(a[1..]);
    }
  }

  lemma {:induction false} StringLessTransitive(a: string, b: string, c: string)
    requires StringLess(a, b) && StringLess(b, c)
    ensures StringLess(a, c)
  {
    if |a| > 0 && |b| > 0 && |c| > 0 && a[0] == b[0] == c[0] {
      StringLessTransitive(a[1..], b[1..], c[1..]);
    }
  }

  lemma {:induction false} StringLessTotal(a: string, b: string)
    requires a != b
    ensures StringLess(a, b) || StringLess(b, a)
  {
    if |a| > 0 && |b| > 0 && a[0] == b[0] {
      assert a == [a[0]] + a[1..] && b == [b[0]] + b[1..];
      StringLessTotal(a[1..], b[1..]);
    }
  }

  lemma StringLessIsStrictTotalOrder()
    ensures StrictTotalOrder(StringLess)
  {
    forall x: string ensures !StringLess(x, x) {
      StringLessIrreflexive(x);
    }
    forall x: string, y: string, z: string | StringLess(x, y) && StringLess(y, z)
      ensures StringLess(x, z)
    {
      StringLessTransitive(x, y, z);
    }
    forall x: string, y: string | x != y
      ensures StringLess(x, y) || StringLess(y, x)
    {
      StringLessTotal(x, y);
    }
  }

  /** Every non-empty finite set has a least element. */
  lemma {:induction false} LeastExists<T(!new)>(s: set<T>, lt: (T, T) -> bool)
    requires StrictTotalOrder(lt) && s != {}
    ensures exists m :: IsLeast(m, s, lt)
  {
    var x :| x in s;
    if s - {x} == {} {
      assert s == {x};
      assert IsLeast(x, s, lt);
    } else {
      LeastExists(s - {x}, lt);
      var m :| IsLeast(m, s - {x}, lt);
      if lt(x, m) {
        forall y | y in s && y != x ensures lt(x, y) {
          if y != m {
            assert lt(m, y);
          }
        }
        assert IsLeast(x, s, lt);
      } else {
        assert IsLeast(m, s, lt);
      }
    }
  }

  /** The least element is unique. */
  lemma LeastUnique<T(!new)>(m: T, n: T, s: set<T>, lt: (T, T) -> bool)
    requires StrictTotalOrder(lt) && IsLeast(m, s, lt) && IsLeast(n, s, lt)
    ensures m == n
  {
  }

  ghost function Least<T(!new)>(s: set<T>, lt: (T, T) -> bool): (m: T)
    requires StrictTotalOrder(lt) && s != {}
    ensures IsLeast(m, s, lt)
  {
    LeastExists(s, lt);
    var m :| IsLeast(m, s, lt);
    m
  }

  /** The elements of `s` in ascending order: the order of an in-order walk
      of an ordered container holding `s`. */
  ghost function SortedElements<T(!new)>(s: set<T>, lt: (T, T) -> bool): (r: seq<T>)
    requires StrictTotalOrder(lt)
    ensures |r| == |s|
    ensures forall x :: x in r <==> x in s
    decreases s
  {
    if s == {} then []
    else
      var m := Least(s, lt);
      [m] + SortedElements(s - {m}, lt)
  }

  /** The walk is in strictly ascending order. */
  lemma {:induction false} SortedElementsAscending<T(!new)>(s: set<T>, lt: (T, T) -> bool)
    requires StrictTotalOrder(lt)
    ensures StrictlySorted(SortedElements(s, lt), lt)
    decreases s
  {
    if s != {} {
      var m := Least(s, lt);
      SortedElementsAscending(s - {m}, lt);
    }
  }

  /** The next element of an ascending walk, found by a linear scan. */
  method FindLeast<T(!new)>(s: set<T>, lt: (T, T) -> bool) returns (m: T)
    requires StrictTotalOrder(lt) && s != {}
    ensures IsLeast(m, s, lt)
  {
    m :| m in s;
    var unseen := s - {m};
    while unseen != {}
      invariant unseen <= s && m in s && m !in unseen
      invariant forall y :: y in s - unseen && y != m ==> lt(m, y)
      decreases unseen
    {
      var y :| y in unseen;
      if lt(y, m) {
        forall z | z in s - (unseen - {y}) && z != y ensures lt(y, z) {
          if z != m {
            assert lt(m, z);
          }
        }
        m := y;
      } else {
        assert lt(m, y);
      }
      unseen := unseen - {y};
    }
  }

  /** Removing the least element of a set leaves the rest of its ascending walk. */
  lemma WalkStep<T(!new)>(s: set<T>, lt: (T, T) -> bool, m: T)
    requires StrictTotalOrder(lt) && IsLeast(m, s, lt)
    ensures SortedElements(s, lt) == [m] + SortedElements(s - {m}, lt)
  {
    LeastUnique(m, Least(s, lt), s, lt);
  }

  lemma WalkAdvance<T(!new)>(s: set<T>, lt: (T, T) -> bool, done: seq<T>, rest: set<T>, m: T)
    requires StrictTotalOrder(lt) && IsLeast(m, rest, lt)
    requires SortedElements(s, lt) == done + SortedElements(rest, lt)
    ensures SortedElements(s, lt) == (done + [m]) + SortedElements(rest - {m}, lt)
  {
    WalkStep(rest, lt, m);
  }

  /** The sequence an iterator of an ordered container visits: the least
      element, then the least of the rest, and so on. */
  method InOrder<T(!new)>(s: set<T>, lt: (T, T) -> bool) returns (r: seq<T>)
    requires StrictTotalOrder(lt)
    ensures r == SortedElements(s, lt)
  {
    r := [];
    var rest := s;
    while rest != {}
      invariant SortedElements(s, lt) == r + SortedElements(rest, lt)
      decreases rest
    {
      var m := FindLeast(rest, lt);
      WalkAdvance(s, lt, r, rest, m);
      r := r + [m];
      rest := rest - {m};
    }
  }
}
