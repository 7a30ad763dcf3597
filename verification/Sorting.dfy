/**
 Python's `sorted` for an arbitrary order. The order is a parameter; the sort keeps equal elements
 in place, as `sorted` does. When the order tells the elements apart, the result is the only sorted
 arrangement of the input: it depends on the multiset of the elements and not on the order they come in.
 */
module Sorting {

  /** Any two elements compare, consistently. */
  ghost predicate Comparable<T(!new)>(le: (T, T) -> bool) {
    && (forall x, y :: le(x, y) || le(y, x))
    && (forall x, y, z :: le(x, y) && le(y, z) ==> le(x, z))
  }

  ghost predicate TotalOrder<T(!new)>(le: (T, T) -> bool) {
    && Comparable(le)
    && (forall x, y :: le(x, y) && le(y, x) ==> x == y)
  }

  /** The order tells different elements of s apart. */
  ghost predicate TellsApart<T>(le: (T, T) -> bool, s: seq<T>) {
    forall x, y :: x in s && y in s && le(x, y) && le(y, x) ==> x == y
  }

  lemma OrderAt<T(!new)>(le: (T, T) -> bool, x: T, y: T, z: T)
    requires Comparable(le)
    ensures le(x, y) || le(y, x)
    ensures le(x, y) && le(y, z) ==> le(x, z)
  {
  }

  ghost predicate Sorted<T>(s: seq<T>, le: (T, T) -> bool) {
    forall i, j :: 0 <= i < j < |s| ==> le(s[i], s[j])
  }

  function Insert<T>(x: T, s: seq<T>, le: (T, T) -> bool): (r: seq<T>)
    ensures multiset(r) == multiset(s) + multiset{x}
    ensures |r| == |s| + 1
  {
    if s == [] then [x]
    else if le(x, s[0]) then [x] + s
    else
      assert s == [s[0]] + s[1..];
      [s[0]] + Insert(x, s[1..], le)
  }

  function Sort<T>(s: seq<T>, le: (T, T) -> bool): (r: seq<T>)
    ensures multiset(r) == multiset(s)
    ensures |r| == |s|
  {
    if s == [] then []
    else
      assert s == [s[0]] + s[1..];
      Insert(s[0], Sort(s[1..], le), le)
  }

  lemma SameElements<T>(s: seq<T>, t: seq<T>)
    requires multiset(s) == multiset(t)
    ensures forall x :: x in s <==> x in t
  {
    forall x
      ensures x in s <==> x in t
    {
      assert x in s <==> x in multiset(s);
      assert x in t <==> x in multiset(t);
    }
  }

  lemma HeadIsLeast<T(!new)>(s: seq<T>, x: T, le: (T, T) -> bool)
    requires Comparable(le)
    requires Sorted(s, le)
    requires x in s
    ensures le(s[0], x)
  {
    hide Comparable;
    OrderAt(le, x, x, x);
  }

  lemma SortedCons<T(!new)>(x: T, s: seq<T>, le: (T, T) -> bool)
    requires Sorted(s, le)
    requires forall y :: y in s ==> le(x, y)
    ensures Sorted([x] + s, le)
  {
  }

  lemma {:induction false} InsertSorted<T(!new)>(x: T, s: seq<T>, le: (T, T) -> bool)
    requires Comparable(le)
    requires Sorted(s, le)
    ensures Sorted(Insert(x, s, le), le)
  {
    hide Comparable;
    if s != [] {
      OrderAt(le, x, s[0], x);
      if le(x, s[0]) {
        forall y | y in s
          ensures le(x, y)
        {
          HeadIsLeast(s, y, le);
          OrderAt(le, x, s[0], y);
        }
        SortedCons(x, s, le);
      } else {
        var rest := Insert(x, s[1..], le);
        InsertSorted(x, s[1..], le);
        SameElements(rest, s[1..] + [x]);
        forall y | y in rest
          ensures le(s[0], y)
        {
          assert y in s[1..] + [x];
          if y != x {
            HeadIsLeast(s, y, le);
          }
        }
        SortedCons(s[0], rest, le);
      }
    }
  }

  lemma {:induction false} SortSorted<T(!new)>(s: seq<T>, le: (T, T) -> bool)
    requires Comparable(le)
    ensures Sorted(Sort(s, le), le)
  {
    if s != [] {
      SortSorted(s[1..], le);
      InsertSorted(s[0], Sort(s[1..], le), le);
    }
  }

  lemma TailsAgree<T>(s: seq<T>, t: seq<T>)
    requires multiset(s) == multiset(t)
    requires s != [] && t != [] && s[0] == t[0]
    ensures multiset(s[1..]) == multiset(t[1..])
  {
    assert s == [s[0]] + s[1..] && t == [t[0]] + t[1..];
    assert multiset(s[1..]) == multiset(s) - multiset{s[0]};
    assert multiset(t[1..]) == multiset(t) - multiset{t[0]};
  }

  /** A multiset the order tells apart has one sorted arrangement. */
  lemma {:induction false} SortedUnique<T(!new)>(s: seq<T>, t: seq<T>, le: (T, T) -> bool)
    requires Comparable(le) && TellsApart(le, s)
    requires Sorted(s, le) && Sorted(t, le)
    requires multiset(s) == multiset(t)
    ensures s == t
  {
    hide Comparable;
    SameElements(s, t);
    if s != [] {
      assert s[0] in t;
      assert t[0] in s;
      HeadIsLeast(s, t[0], le);
      HeadIsLeast(t, s[0], le);
      TailsAgree(s, t);
      assert TellsApart(le, s[1..]);
      SortedUnique(s[1..], t[1..], le);
    } else {
      assert |t| == |multiset(t)| == |multiset(s)| == 0;
    }
  }

  /** A sorted rearrangement of a list is its sort. */
  lemma SortIsSortedRearrangement<T(!new)>(s: seq<T>, t: seq<T>, le: (T, T) -> bool)
    requires TotalOrder(le)
    requires Sorted(t, le) && multiset(s) == multiset(t)
    ensures Sort(s, le) == t
  {
    SortSorted(s, le);
    SortedUnique(Sort(s, le), t, le);
  }

  /** Sorting forgets the order its input came in. */
  lemma SortCanonical<T(!new)>(s: seq<T>, t: seq<T>, le: (T, T) -> bool)
    requires Comparable(le) && TellsApart(le, s)
    requires multiset(s) == multiset(t)
    ensures Sort(s, le) == Sort(t, le)
  {
    SortSorted(s, le);
    SortSorted(t, le);
    SameElements(Sort(s, le), s);
    SortedUnique(Sort(s, le), Sort(t, le), le);
  }

  ghost predicate NoRepeats<T>(s: seq<T>) {
    forall i, j :: 0 <= i < j < |s| ==> s[i] != s[j]
  }

  lemma {:induction false} OnceEach<T(!new)>(s: seq<T>, x: T)
    requires NoRepeats(s)
    ensures multiset(s)[x] == if x in s then 1 else 0
  {
    if s != [] {
      var last := |s| - 1;
      assert s == s[..last] + [s[last]];
      OnceEach(s[..last], x);
    }
  }

  /** Two lists without repeats and with the same members are rearrangements of each other. */
  lemma {:induction false} SameMembers<T(!new)>(s: seq<T>, t: seq<T>)
    requires NoRepeats(s) && NoRepeats(t)
    requires forall x :: x in s <==> x in t
    ensures multiset(s) == multiset(t)
  {
    forall x
      ensures multiset(s)[x] == multiset(t)[x]
    {
      OnceEach(s, x);
      OnceEach(t, x);
    }
  }

  function Map<A, B>(f: A -> B, s: seq<A>): (r: seq<B>) {
    seq(|s|, i requires 0 <= i < |s| => f(s[i]))
  }

  lemma RemoveAt<A>(t: seq<A>, p: nat)
    requires p < |t|
    ensures multiset(t) == multiset(t[..p] + t[p + 1..]) + multiset{t[p]}
    ensures multiset(t[..p] + t[p + 1..]) == multiset(t) - multiset{t[p]}
  {
    assert t == t[..p] + [t[p]] + t[p + 1..];
  }

  lemma MapRemoveAt<A, B>(f: A -> B, t: seq<A>, p: nat)
    requires p < |t|
    ensures multiset(Map(f, t)) == multiset(Map(f, t[..p] + t[p + 1..])) + multiset{f(t[p])}
  {
    RemoveAt(Map(f, t), p);
    assert Map(f, t)[..p] + Map(f, t)[p + 1..] == Map(f, t[..p] + t[p + 1..]);
  }

  /** Where to find the head of `s` in a rearrangement, and that the rest are rearrangements again. */
  lemma FindHead<A>(s: seq<A>, t: seq<A>) returns (p: nat)
    requires s != [] && multiset(s) == multiset(t)
    ensures p < |t| && t[p] == s[0]
    ensures multiset(s[..0] + s[1..]) == multiset(t[..p] + t[p + 1..])
  {
    assert s[0] in multiset(t);
    p :| 0 <= p < |t| && t[p] == s[0];
    RemoveAt(s, 0);
    RemoveAt(t, p);
  }

  /** Mapping a rearrangement gives a rearrangement of the mapped list. */
  lemma {:induction false} MapPermutes<A, B>(f: A -> B, s: seq<A>, t: seq<A>)
    requires multiset(s) == multiset(t)
    ensures multiset(Map(f, s)) == multiset(Map(f, t))
    decreases |s|
  {
    hide *;
    if s == [] {
      assert |multiset(t)| == 0;
    } else {
      var p := FindHead(s, t);
      MapPermutes(f, s[..0] + s[1..], t[..p] + t[p + 1..]);
      MapRemoveAt(f, t, p);
      MapRemoveAt(f, s, 0);
    }
  }
}
