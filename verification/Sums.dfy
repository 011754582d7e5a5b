/** Sums over sets and sequences, whatever order they are taken in. */
module Sums {
  import opened Ledger

  ghost function Sum<T(!new)>(s: set<T>, f: T -> int): int {
    if s == {} then 0 else var x :| x in s; f(x) + Sum(s - {x}, f)
  }

  function SumOf<T>(s: seq<T>, f: T -> int): int {
    if s == [] then 0 else f(s[0]) + SumOf(s[1..], f)
  }

  /** Any element may be taken out first. */
  lemma {:induction false} SumWithout<T(!new)>(s: set<T>, f: T -> int, x: T)
    requires x in s
    ensures Sum(s, f) == f(x) + Sum(s - {x}, f)
    decreases |s|
  {
    var y :| y in s && Sum(s, f) == f(y) + Sum(s - {y}, f);
    if y != x {
      SumWithout(s - {y}, f, x);
      SumWithout(s - {x}, f, y);
      assert s - {x} - {y} == s - {y} - {x};
    }
  }

  lemma SumInsert<T(!new)>(s: set<T>, f: T -> int, x: T)
    requires x !in s
    ensures Sum(s + {x}, f) == f(x) + Sum(s, f)
  {
    SumWithout(s + {x}, f, x);
    assert s + {x} - {x} == s;
  }

  lemma {:induction false} SumUnion<T(!new)>(a: set<T>, b: set<T>, f: T -> int)
    requires a !! b
    ensures Sum(a + b, f) == Sum(a, f) + Sum(b, f)
    decreases |b|
  {
    if b == {} {
      assert a + b == a;
    } else {
      var x :| x in b;
      SumUnion(a, b - {x}, f);
      SumWithout(b, f, x);
      SumInsert(a + (b - {x}), f, x);
      assert a + (b - {x}) + {x} == a + b;
    }
  }

  lemma SumMinus<T(!new)>(a: set<T>, b: set<T>, f: T -> int)
    requires b <= a
    ensures Sum(a - b, f) == Sum(a, f) - Sum(b, f)
  {
    SumUnion(a - b, b, f);
    assert a - b + b == a;
  }

  lemma {:induction false} SumCongruent<T(!new)>(s: set<T>, f: T -> int, g: T -> int)
    requires forall x | x in s :: f(x) == g(x)
    ensures Sum(s, f) == Sum(s, g)
    decreases |s|
  {
    if s != {} {
      var x :| x in s;
      SumWithout(s, f, x);
      SumWithout(s, g, x);
      SumCongruent(s - {x}, f, g);
    }
  }

  lemma {:induction false} SumNonNegative<T(!new)>(s: set<T>, f: T -> int)
    requires forall x | x in s :: f(x) >= 0
    ensures Sum(s, f) >= 0
    decreases |s|
  {
    if s != {} {
      var x :| x in s;
      SumWithout(s, f, x);
      SumNonNegative(s - {x}, f);
    }
  }

  /** A term of a sum of non-negative terms is at most the sum. */
  lemma SumBoundsTerm<T(!new)>(s: set<T>, f: T -> int, x: T)
    requires x in s && forall y | y in s :: f(y) >= 0
    ensures f(x) <= Sum(s, f)
  {
    SumWithout(s, f, x);
    SumNonNegative(s - {x}, f);
  }

  lemma {:induction false} SumOfSet<T(!new)>(s: seq<T>, f: T -> int)
    requires NoDuplicates(s)
    ensures SumOf(s, f) == Sum(AsSet(s), f)
    decreases s
  {
    if s != [] {
      NoDuplicatesTail(s);
      SumOfSet(s[1..], f);
      SumInsert(AsSet(s[1..]), f, s[0]);
      assert AsSet(s[1..]) + {s[0]} == AsSet(s);
    } else {
      assert AsSet(s) == {};
    }
  }

  lemma {:induction false} SumOfConcat<T>(a: seq<T>, b: seq<T>, f: T -> int)
    ensures SumOf(a + b, f) == SumOf(a, f) + SumOf(b, f)
    decreases a
  {
    if a == [] {
      assert a + b == b;
    } else {
      assert (a + b)[1..] == a[1..] + b;
      SumOfConcat(a[1..], b, f);
    }
  }

  lemma {:induction false} SumOfCongruent<T>(s: seq<T>, f: T -> int, g: T -> int)
    requires forall x | x in s :: f(x) == g(x)
    ensures SumOf(s, f) == SumOf(s, g)
    decreases s
  {
    if s != [] {
      assert s[0] in s;
      SumOfCongruent(s[1..], f, g);
    }
  }

  ghost function Positions(n: nat): (r: set<int>)
    ensures forall j :: j in r <==> 0 <= j < n
  {
    if n == 0 then {} else Positions(n - 1) + {n - 1}
  }

  /** Summing over the positions of a sequence, in any order. */
  lemma {:induction false} SumOfPositions<T>(s: seq<T>, f: T -> int, g: int -> int)
    requires forall j | 0 <= j < |s| :: g(j) == f(s[j])
    ensures SumOf(s, f) == Sum(Positions(|s|), g)
    decreases s
  {
    var n := |s|;
    if n == 0 {
      assert Positions(0) == {};
    } else {
      var front, last := s[..n - 1], s[n - 1];
      SumOfPositions(front, f, g);
      assert s == front + [last];
      SumOfConcat(front, [last], f);
      assert SumOf([last], f) == f(last);
      assert Positions(n) == Positions(n - 1) + {n - 1};
      SumInsert(Positions(n - 1), g, n - 1);
    }
  }
}
