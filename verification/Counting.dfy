/** Counting repeated values: what "duplicate" counts of either kind have to do with each other. */
module Counting {

  /** No value occurs at two positions. */
  ghost predicate NoDup<T>(s: seq<T>) {
    forall i, j :: 0 <= i < j < |s| ==> s[i] != s[j]
  }

  function Distinct<T(==)>(s: seq<T>): set<T> {
    set x | x in s
  }

  /** How many positions of `s` hold a value that occurs more than once in `all`. */
  function Repeated<T(==)>(s: seq<T>, all: multiset<T>): nat {
    if s == [] then 0 else
    var k := |s| - 1;
    Repeated(s[..k], all) + if all[s[k]] > 1 then 1 else 0
  }

  lemma {:induction false} RepeatedWhenAdded<T>(s: seq<T>, all: multiset<T>, x: T)
    ensures Repeated(s, all + multiset{x}) == Repeated(s, all) + if all[x] == 1 then multiset(s)[x] else 0
  {
    if s != [] {
      var k := |s| - 1;
      RepeatedWhenAdded(s[..k], all, x);
      assert s == s[..k] + [s[k]];
    }
  }

  lemma DistinctOfMore<T>(s: seq<T>, x: T)
    ensures Distinct(s + [x]) == Distinct(s) + {x}
    ensures |Distinct(s + [x])| == |Distinct(s)| + if x in s then 0 else 1
  {
    assert Distinct(s + [x]) == Distinct(s) + {x};
  }

  /**
   Over any sequence, the positions holding a repeated value number at least the values in excess of one
   per distinct value, and at most twice as many; in particular one count is zero exactly when the other is.
   */
  lemma {:induction false} ExcessBounds<T>(s: seq<T>)
    ensures |Distinct(s)| <= |s|
    ensures |s| - |Distinct(s)| <= Repeated(s, multiset(s)) <= 2 * (|s| - |Distinct(s)|)
  {
    if s != [] {
      var k := |s| - 1;
      var p, x := s[..k], s[k];
      ExcessBounds(p);
      DistinctOfMore(p, x);
      assert s == p + [x];
      RepeatedWhenAdded(p, multiset(p), x);
      assert multiset(s) == multiset(p) + multiset{x};
      assert x in p <==> multiset(p)[x] > 0;
    }
  }

  /** No value is repeated exactly when all positions differ. */
  lemma {:induction false} DistinctIffInjective<T>(s: seq<T>)
    ensures |Distinct(s)| == |s| <==> NoDup(s)
  {
    if s != [] {
      var k := |s| - 1;
      DistinctIffInjective(s[..k]);
      ExcessBounds(s[..k]);
      DistinctOfMore(s[..k], s[k]);
      assert s == s[..k] + [s[k]];
      assert s[k] in s[..k] ==> exists i :: 0 <= i < k && s[i] == s[k];
    }
  }

  /** A view of the same positions through a function has no more distinct values. */
  lemma {:induction false} CoarserIsFewer<T, U>(s: seq<T>, t: seq<U>, view: T -> U)
    requires |s| == |t| && forall i :: 0 <= i < |s| ==> t[i] == view(s[i])
    ensures |Distinct(t)| <= |Distinct(s)|
  {
    if s != [] {
      var k := |s| - 1;
      var p, q := s[..k], t[..k];
      assert s == p + [s[k]] && t == q + [t[k]];
      assert s[k] in p ==> t[k] in q by {
        if s[k] in p {
          var i :| 0 <= i < k && p[i] == s[k];
          assert q[i] == t[k];
        }
      }
      hide Distinct;
      CoarserIsFewer(p, q, view);
      DistinctOfMore(p, s[k]);
      DistinctOfMore(q, t[k]);
    }
  }

  function Filter<T(!new)>(s: seq<T>, p: T -> bool): (r: seq<T>)
    ensures |r| <= |s|
    ensures forall x :: x in r <==> x in s && p(x)
  {
    if s == [] then [] else
    var k := |s| - 1;
    Filter(s[..k], p) + if p(s[k]) then [s[k]] else []
  }

  lemma {:induction false} FilterSame<T(!new)>(s: seq<T>, p: T -> bool, q: T -> bool)
    requires forall x :: x in s ==> p(x) == q(x)
    ensures Filter(s, p) == Filter(s, q)
  {
    if s != [] {
      FilterSame(s[..|s| - 1], p, q);
    }
  }

  lemma {:induction false} FilterMonotone<T(!new)>(s: seq<T>, p: T -> bool, q: T -> bool)
    requires forall x :: x in s && p(x) ==> q(x)
    ensures multiset(Filter(s, p)) <= multiset(Filter(s, q))
  {
    if s != [] {
      FilterMonotone(s[..|s| - 1], p, q);
    }
  }

  /** A filter keeps everything exactly when everything passes it. */
  lemma {:induction false} FilterAll<T(!new)>(s: seq<T>, p: T -> bool)
    ensures |Filter(s, p)| == |s| <==> forall x :: x in s ==> p(x)
  {
    if s != [] {
      var k := |s| - 1;
      FilterAll(s[..k], p);
      assert s == s[..k] + [s[k]];
    }
  }
}
