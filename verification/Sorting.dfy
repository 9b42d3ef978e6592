/** Sorting of code points, and why the order a sort started from is forgotten. */
module Sorting {
  import opened Wire

  predicate Sorted(s: seq<u16>) {
    s == [] || ((forall y <- s :: s[0] <= y) && Sorted(s[1..]))
  }

  function Insert(x: u16, s: seq<u16>): seq<u16> {
    if s == [] then [x]
    else if x <= s[0] then [x] + s
    else [s[0]] + Insert(x, s[1..])
  }

  function Sort(s: seq<u16>): seq<u16> {
    if s == [] then [] else Insert(s[0], Sort(s[1..]))
  }

  lemma {:induction false} InsertElements(x: u16, s: seq<u16>)
    ensures multiset(Insert(x, s)) == multiset{x} + multiset(s)
  {
    if s != [] {
      assert s == [s[0]] + s[1..];
      InsertElements(x, s[1..]);
    }
  }

  lemma InsertMembers(x: u16, s: seq<u16>, y: u16)
    ensures y in Insert(x, s) <==> y == x || y in s
  {
  }

  lemma {:induction false} InsertSorted(x: u16, s: seq<u16>)
    requires Sorted(s)
    ensures Sorted(Insert(x, s))
  {
    var r := Insert(x, s);
    if s != [] && x > s[0] {
      InsertSorted(x, s[1..]);
      assert r[1..] == Insert(x, s[1..]);
    } else {
      assert r[1..] == s;
    }
    forall y <- r
      ensures r[0] <= y
    {
      InsertMembers(x, s, y);
    }
  }

  lemma {:induction false} SortSorts(s: seq<u16>)
    ensures Sorted(Sort(s)) && multiset(Sort(s)) == multiset(s)
  {
    if s != [] {
      SortSorts(s[1..]);
      InsertSorted(s[0], Sort(s[1..]));
      InsertElements(s[0], Sort(s[1..]));
      assert s == [s[0]] + s[1..];
    }
  }

  lemma SortedFirst(s: seq<u16>, y: u16)
    requires Sorted(s) && y in multiset(s)
    ensures s != [] && s[0] <= y
  {
    assert y in s;
  }

  lemma TailElements(s: seq<u16>)
    requires s != []
    ensures multiset(s[1..]) == multiset(s) - multiset{s[0]} && s[0] in multiset(s)
  {
    assert s == [s[0]] + s[1..];
  }

  lemma SortedHead(s: seq<u16>, t: seq<u16>)
    requires Sorted(s) && Sorted(t) && s != [] && multiset(s) == multiset(t)
    ensures t != [] && s[0] == t[0] && multiset(s[1..]) == multiset(t[1..])
  {
    assert |multiset(t)| == |t| && |multiset(s)| == |s|;
    TailElements(s);
    TailElements(t);
    assert s[0] in multiset(t) && t[0] in multiset(s);
    SortedFirst(s, t[0]);
    SortedFirst(t, s[0]);
  }

  /** A sorted sequence is determined by its elements. */
  lemma {:induction false} SortedUnique(s: seq<u16>, t: seq<u16>)
    requires Sorted(s) && Sorted(t) && multiset(s) == multiset(t)
    ensures s == t
  {
    assert |s| == |multiset(s)| && |t| == |multiset(t)|;
    if s != [] {
      SortedHead(s, t);
      SortedUnique(s[1..], t[1..]);
      assert s == [s[0]] + s[1..] && t == [t[0]] + t[1..];
    }
  }

  /** Sorting is a complete invariant of the multiset. */
  lemma SortsAlike(s: seq<u16>, t: seq<u16>)
    ensures Sort(s) == Sort(t) <==> multiset(s) == multiset(t)
    ensures Sort(s) == [] <==> s == []
  {
    SortSorts(s);
    SortSorts(t);
    assert |multiset(s)| == |s| && |multiset(Sort(s))| == |Sort(s)|;
    if multiset(s) == multiset(t) {
      SortedUnique(Sort(s), Sort(t));
    }
  }
}
