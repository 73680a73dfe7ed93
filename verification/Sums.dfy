/** Sums of reals, and of a real-valued function over the elements of a sequence. */
module Sums {
  import opened Counting

  function Max(a: real, b: real): real {
    if a >= b then a else b
  }

  function Sum(xs: seq<real>): real {
    if xs == [] then 0.0 else Sum(xs[..|xs| - 1]) + xs[|xs| - 1]
  }

  function SumF<T>(s: seq<T>, f: T -> real): real {
    if s == [] then 0.0 else SumF(s[..|s| - 1], f) + f(s[|s| - 1])
  }

  /** The values of `s` in order of first occurrence. */
  function Uniq<T(==)>(s: seq<T>): (u: seq<T>)
    ensures NoDup(u)
  {
    if s == [] then [] else
    var k := |s| - 1;
    var u := Uniq(s[..k]);
    if s[k] in u then u else u + [s[k]]
  }

  lemma {:induction false} UniqHasSame<T>(s: seq<T>, x: T)
    ensures x in Uniq(s) <==> x in s
  {
    if s != [] {
      UniqHasSame(s[..|s| - 1], x);
      assert s == s[..|s| - 1] + [s[|s| - 1]];
    }
  }

  lemma UniqStep<T>(s: seq<T>, x: T)
    ensures Uniq(s + [x]) == if x in s then Uniq(s) else Uniq(s) + [x]
  {
    assert (s + [x])[..|s|] == s;
    UniqHasSame(s, x);
  }

  lemma SumStep<T>(s: seq<T>, x: T, f: T -> real)
    ensures SumF(s + [x], f) == SumF(s, f) + f(x)
  {
    assert (s + [x])[..|s|] == s;
  }

  lemma {:induction false} SumAppend<T>(a: seq<T>, b: seq<T>, f: T -> real)
    ensures SumF(a + b, f) == SumF(a, f) + SumF(b, f)
  {
    if b == [] {
      assert a + b == a;
    } else {
      var k := |b| - 1;
      SumAppend(a, b[..k], f);
      assert (a + b)[..|a + b| - 1] == a + b[..k];
    }
  }

  lemma {:induction false} SumAdd<T(!new)>(s: seq<T>, f: T -> real, g: T -> real, h: T -> real)
    requires forall x :: x in s ==> f(x) == g(x) + h(x)
    ensures SumF(s, f) == SumF(s, g) + SumF(s, h)
  {
    if s != [] {
      SumAdd(s[..|s| - 1], f, g, h);
    }
  }

  lemma {:induction false} SumZero<T(!new)>(s: seq<T>, f: T -> real)
    requires forall x :: x in s ==> f(x) == 0.0
    ensures SumF(s, f) == 0.0
  {
    if s != [] {
      SumZero(s[..|s| - 1], f);
    }
  }

  /** A function that is zero away from `x` sums to its value there, counted once. */
  lemma {:induction false} SumPoint<T(!new)>(s: seq<T>, x: T, f: T -> real)
    requires NoDup(s)
    requires forall y :: y in s && y != x ==> f(y) == 0.0
    ensures SumF(s, f) == if x in s then f(x) else 0.0
  {
    if s != [] {
      var k := |s| - 1;
      assert s == s[..k] + [s[k]];
      if s[k] == x {
        SumZero(s[..k], f);
      } else {
        SumPoint(s[..k], x, f);
      }
    }
  }

  /** `f` on the elements of `b`, zero elsewhere. */
  function OnlyIn<T(==)>(b: seq<T>, f: T -> real): T -> real {
    x => if x in b then f(x) else 0.0
  }

  /** Summing over the common elements of two sequences gives the same from either side. */
  lemma {:induction false} SumCommon<T(!new)>(a: seq<T>, b: seq<T>, f: T -> real)
    requires NoDup(a) && NoDup(b)
    ensures SumF(a, OnlyIn(b, f)) == SumF(b, OnlyIn(a, f))
  {
    if a == [] {
      SumZero(b, OnlyIn(a, f));
    } else {
      var k := |a| - 1;
      var p, y := a[..k], a[k];
      assert a == p + [y];
      SumCommon(p, b, f);
      var point := x => if x == y then f(x) else 0.0;
      SumPoint(b, y, point);
      SumAdd(b, OnlyIn(a, f), OnlyIn(p, f), point);
    }
  }

  /** Terms of bounded size have a sum of bounded size. */
  lemma {:induction false} SumBound<T(!new)>(s: seq<T>, f: T -> real, t: real)
    requires forall x :: x in s ==> -t <= f(x) <= t
    ensures -(|s| as real * t) <= SumF(s, f) <= |s| as real * t
  {
    if s != [] {
      SumBound(s[..|s| - 1], f, t);
      assert |s| as real * t == (|s| - 1) as real * t + t;
    }
  }
}
