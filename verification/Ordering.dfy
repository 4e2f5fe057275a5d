/** Ascending order of numbers, as the source's `sort((a, b) => a - b)` makes it, and the counts taken of it. */
module Ordering {
  ghost predicate Ascending(s: seq<real>) {
    forall i, j :: 0 <= i < j < |s| ==> s[i] <= s[j]
  }

  function Insert(x: real, s: seq<real>): seq<real> {
    if s == [] || x <= s[0] then [x] + s else [s[0]] + Insert(x, s[1..])
  }

  function Sort(s: seq<real>): seq<real> {
    if s == [] then [] else Insert(s[0], Sort(s[1..]))
  }

  lemma {:induction false} InsertSorts(x: real, s: seq<real>)
    requires Ascending(s)
    ensures Ascending(Insert(x, s)) && Insert(x, s) != []
    ensures Insert(x, s)[0] == if s == [] || x <= s[0] then x else s[0]
  {
    if s != [] && s[0] < x {
      InsertSorts(x, s[1..]);
      InFront(s[0], Insert(x, s[1..]));
    }
  }

  lemma InFront(x: real, s: seq<real>)
    requires Ascending(s) && s != [] && x <= s[0]
    ensures Ascending([x] + s)
  {
  }

  lemma {:induction false} InsertAdds(x: real, s: seq<real>)
    ensures multiset(Insert(x, s)) == multiset{x} + multiset(s)
  {
    if s != [] && s[0] < x {
      InsertAdds(x, s[1..]);
      assert s == [s[0]] + s[1..];
    }
  }

  lemma {:induction false} SortSorts(s: seq<real>)
    ensures Ascending(Sort(s)) && multiset(Sort(s)) == multiset(s) && |Sort(s)| == |s|
  {
    if s == [] {
    } else {
      SortSorts(s[1..]);
      InsertSorts(s[0], Sort(s[1..]));
      InsertAdds(s[0], Sort(s[1..]));
      assert s == [s[0]] + s[1..];
      assert |multiset(Sort(s))| == |multiset(s)|;
    }
  }

  /** There is one way to put a collection of numbers in order. */
  lemma {:induction false} OneOrder(a: seq<real>, b: seq<real>)
    requires Ascending(a) && Ascending(b) && multiset(a) == multiset(b)
    ensures a == b
    decreases |a|
  {
    assert |a| == |multiset(a)| == |multiset(b)| == |b|;
    if a == [] {
    } else {
      FirstIsLeast(a, b);
      FirstIsLeast(b, a);
      AllButFirst(a);
      AllButFirst(b);
      OneOrder(a[1..], b[1..]);
      assert a == [a[0]] + a[1..] && b == [b[0]] + b[1..];
    }
  }

  lemma FirstIsLeast(a: seq<real>, b: seq<real>)
    requires Ascending(a) && a != [] && b != [] && multiset(a) == multiset(b)
    ensures a[0] <= b[0]
  {
    assert b[0] in multiset(a);
    var i :| 0 <= i < |a| && a[i] == b[0];
  }

  lemma AllButFirst(a: seq<real>)
    requires a != []
    ensures multiset(a[1..]) == multiset(a) - multiset{a[0]}
  {
    assert a == [a[0]] + a[1..];
  }

  lemma SortsAlike(a: seq<real>, b: seq<real>)
    requires multiset(a) == multiset(b)
    ensures Sort(a) == Sort(b)
  {
    SortSorts(a);
    SortSorts(b);
    OneOrder(Sort(a), Sort(b));
  }

  /** How many are below `lo` or above `hi`. */
  function Outside(s: seq<real>, lo: real, hi: real): nat {
    if s == [] then 0 else (if s[0] < lo || s[0] > hi then 1 else 0) + Outside(s[1..], lo, hi)
  }

  lemma {:induction false} OutsideOfInsert(x: real, s: seq<real>, lo: real, hi: real)
    ensures Outside(Insert(x, s), lo, hi) == (if x < lo || x > hi then 1 else 0) + Outside(s, lo, hi)
  {
    if s == [] || x <= s[0] {
      assert Insert(x, s)[1..] == s;
    } else {
      OutsideOfInsert(x, s[1..], lo, hi);
      assert Insert(x, s)[1..] == Insert(x, s[1..]);
    }
  }

  lemma {:induction false} OutsideOfSort(s: seq<real>, lo: real, hi: real)
    ensures Outside(Sort(s), lo, hi) == Outside(s, lo, hi)
  {
    if s == [] {
    } else {
      OutsideOfSort(s[1..], lo, hi);
      OutsideOfInsert(s[0], Sort(s[1..]), lo, hi);
    }
  }

  /** In order, the numbers outside are at the two ends. */
  lemma {:induction false} OutsideOfAscending(s: seq<real>, lo: real, hi: real, i: nat, j: int)
    requires Ascending(s) && i < |s| && 0 <= j < |s| && lo <= s[i] && s[j] <= hi
    ensures Outside(s, lo, hi) <= i + (|s| - 1 - j)
    decreases |s|
  {
    assert forall k :: 0 <= k < |s| - 1 ==> s[1..][k] == s[k + 1];
    if |s| > 1 {
      if i > 0 && j > 0 {
        OutsideOfAscending(s[1..], lo, hi, i - 1, j - 1);
      } else if i > 0 {
        OutsideAtMost(s, lo, hi);
      } else if j > 0 {
        OutsideOfAscending(s[1..], lo, hi, 0, j - 1);
      } else {
        OutsideAtMost(s[1..], lo, hi);
      }
    }
  }

  lemma {:induction false} OutsideAtMost(s: seq<real>, lo: real, hi: real)
    ensures Outside(s, lo, hi) <= |s|
  {
    if s == [] {
    } else {
      OutsideAtMost(s[1..], lo, hi);
    }
  }

  /** The first of `a` taken out of `b`: what is left of both is alike again. */
  lemma TakenOut<T>(a: seq<T>, b: seq<T>) returns (i: nat)
    requires multiset(a) == multiset(b) && a != []
    ensures i < |b| && b[i] == a[0] && b == b[..i] + ([b[i]] + b[i + 1..])
    ensures multiset(a[1..]) == multiset(b[..i] + b[i + 1..])
  {
    assert a[0] in multiset(b);
    i :| 0 <= i < |b| && b[i] == a[0];
    assert b == b[..i] + ([b[i]] + b[i + 1..]);
    assert a == [a[0]] + a[1..];
    assert multiset(a[1..]) == multiset(a) - multiset{a[0]};
    assert multiset(b[..i] + b[i + 1..]) == multiset(b) - multiset{b[i]};
  }
}
