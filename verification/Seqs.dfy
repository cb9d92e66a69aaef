/** Facts about sequence concatenation used by several modules. */
module Seqs {

  /** Two ways of cutting one sequence: the longer front starts with the shorter one. */
  lemma Recut<T>(a: seq<T>, b: seq<T>, c: seq<T>, d: seq<T>)
    requires a + b == c + d
    ensures |a| >= |c| ==> a == c + a[|c|..] && a[|c|..] + b == d
    ensures |a| <= |c| ==> c == a + c[|a|..] && c[|a|..] + d == b
  {
    if |a| >= |c| {
      assert a == (a + b)[..|a|] && c == (c + d)[..|c|];
      assert a[|c|..] + b == (a + b)[|c|..] && d == (c + d)[|c|..];
    }
    if |a| <= |c| {
      assert a == (a + b)[..|a|] && c == (c + d)[..|c|];
      assert c[|a|..] + d == (c + d)[|a|..] && b == (a + b)[|a|..];
    }
  }

  lemma Assoc<T>(a: seq<T>, b: seq<T>, c: seq<T>)
    ensures (a + b) + c == a + (b + c)
  {
  }

  lemma SplitAt<T>(s: seq<T>, n: nat)
    requires n <= |s|
    ensures s == s[..n] + s[n..]
  {
  }

  /** `a` is `b` with some elements left out. */
  predicate Subsequence<T(==)>(a: seq<T>, b: seq<T>) {
    a == [] || (b != [] && Subsequence(if a[0] == b[0] then a[1..] else a, b[1..]))
  }

  /** What is left of the tail of a sequence is left of the whole. */
  lemma {:induction false} Skip<T>(a: seq<T>, x: T, b: seq<T>)
    requires Subsequence(a, b)
    ensures Subsequence(a, [x] + b)
    decreases |b|
  {
    assert ([x] + b)[1..] == b;
    if a != [] && a[0] == x {
      assert [b[0]] + b[1..] == b;
      if a[0] != b[0] { Shorter(a, b[1..]); }
      Skip(a[1..], b[0], b[1..]);
    }
  }

  lemma {:induction false} Shorter<T>(a: seq<T>, b: seq<T>)
    requires Subsequence(a, b) && a != []
    ensures Subsequence(a[1..], b)
    decreases |b|
  {
    assert [b[0]] + b[1..] == b;
    if a[0] != b[0] { Shorter(a, b[1..]); }
    Skip(a[1..], b[0], b[1..]);
  }

  lemma {:induction false} Grow<T>(a: seq<T>, b: seq<T>, x: T)
    requires Subsequence(a, b)
    ensures Subsequence(a, b + [x]) && Subsequence(a + [x], b + [x])
    decreases |b|
  {
    if b == [] {
      assert [x][0] == x;
    } else {
      assert (b + [x])[1..] == b[1..] + [x];
      if a == [] {
        Grow(a, b[1..], x);
        if [x][0] == b[0] { assert [x][1..] == []; }
      } else {
        assert (a + [x])[1..] == a[1..] + [x];
        Grow(if a[0] == b[0] then a[1..] else a, b[1..], x);
      }
    }
  }
}
