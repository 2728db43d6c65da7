/** Facts about sequences that the solver wants named. */
module Seqs {
  lemma Associate<T>(a: seq<T>, b: seq<T>, c: seq<T>)
    ensures a + (b + c) == a + b + c
  {
  }

  lemma ConsTail<T>(x: T, s: seq<T>)
    ensures ([x] + s)[0] == x && ([x] + s)[1..] == s
  {
  }

  lemma HeadTail<T>(s: seq<T>)
    requires s != []
    ensures s == [s[0]] + s[1..]
  {
  }

  lemma Parts<T>(a: seq<T>, b: seq<T>)
    ensures (a + b)[..|a|] == a && (a + b)[|a|..] == b
  {
  }

  /** A stretch of `all` that is two pieces holds each of them. */
  lemma Halves<T>(all: seq<T>, offset: nat, a: seq<T>, b: seq<T>)
    requires offset + |a| + |b| <= |all| && all[offset..offset + |a| + |b|] == a + b
    ensures all[offset..offset + |a|] == a && all[offset + |a|..offset + |a| + |b|] == b
  {
    var stretch := all[offset..offset + |a| + |b|];
    assert all[offset..offset + |a|] == stretch[..|a|];
    assert all[offset + |a|..offset + |a| + |b|] == stretch[|a|..];
    Parts(a, b);
  }

  /** A slice of a stretch is a slice of the whole. */
  lemma Within<T>(all: seq<T>, offset: nat, part: seq<T>, i: nat, j: nat)
    requires i <= j <= |part| && offset + |part| <= |all| && all[offset..offset + |part|] == part
    ensures all[offset + i..offset + j] == part[i..j]
  {
    forall k | i <= k < j ensures all[offset + k] == part[k] {
      assert all[offset..offset + |part|][k] == all[offset + k];
    }
  }
}
