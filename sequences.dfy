/** Facts about splitting and joining sequences, kept apart from the model so that each is
    proved without the model's definitions in view. */
module Sequences {

  lemma AppendAssociative<T>(a: seq<T>, b: seq<T>, c: seq<T>)
    ensures a + (b + c) == (a + b) + c
  {
  }

  lemma LastSplit<T>(s: seq<T>)
    requires s != []
    ensures s == s[..|s| - 1] + [s[|s| - 1]]
  {
  }

  lemma MoveHead<T>(a: seq<T>, ds: seq<T>)
    requires ds != []
    ensures (a + [ds[0]]) + ds[1..] == a + ds
  {
  }

  lemma SplitAfterHead<T>(s: seq<T>, x: T, j: nat)
    requires 0 < j <= |s|
    ensures [s[0]] + (s[1..][..j - 1] + [x] + s[1..][j - 1..]) == s[..j] + [x] + s[j..]
  {
  }

  lemma MultisetTail<T>(s: seq<T>)
    requires s != []
    ensures multiset(s[1..]) == multiset(s) - multiset{s[0]}
  {
    assert s == [s[0]] + s[1..];
  }

  lemma CancelPrefix<T>(h: seq<T>, a: seq<T>, b: seq<T>)
    requires h + a == h + b
    ensures a == b
  {
    assert a == (h + a)[|h|..];
    assert b == (h + b)[|h|..];
  }

  lemma HeadAndTail<T>(r: seq<T>, q: seq<T>)
    requires r != [] && q != [] && r[0] == q[0] && r[1..] == q[1..]
    ensures r == q
  {
  }

  lemma WholeSlices<T>(s: seq<T>)
    ensures s[..0] == [] && s[0..] == s
    ensures s[..|s|] == s && s[|s|..] == []
  {
  }

  lemma SuffixTail<T>(s: seq<T>, i: nat)
    requires i < |s|
    ensures s[i..] != [] && s[i..][0] == s[i] && s[i..][1..] == s[i + 1..]
  {
  }

  lemma ConsPrefix<T>(a: seq<T>, k: nat)
    requires k < |a|
    ensures a[..k + 1] == [a[0]] + a[1..][..k]
  {
  }

  lemma TailPrefix<T>(a: seq<T>, k: nat)
    requires 0 < k <= |a|
    ensures a[1..][..k - 1] == a[..k][1..]
  {
  }

  lemma PrefixOfSnoc<T>(s: seq<T>, x: T, r: seq<T>)
    requires |s| + 1 <= |r| && r[..|s| + 1] == s + [x]
    ensures r[..|s|] == s
  {
    assert r[..|s|] == r[..|s| + 1][..|s|];
  }
}
