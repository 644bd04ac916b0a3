/** `sortData` and `getTopUsers`: ranking the reference counts, most referenced first,
    ties broken by name. */
module Ranking {
  import opened JsStrings
  import opened Users
  import opened Sequences

  /** The comparator `sortData` hands to `Array.prototype.sort`. Its sign is the rank order:
      negative when `a` goes first (more references, or as many and a smaller name), positive when
      `b` goes first, and zero exactly when the two have the same count and the same name. */
  function Compare(a: FriendCount, b: FriendCount): (c: int)
    ensures c < 0 <==> a.count > b.count || (a.count == b.count && Less(a.name, b.name))
    ensures c > 0 <==> a.count < b.count || (a.count == b.count && Less(b.name, a.name))
    ensures c == 0 <==> a.count == b.count && a.name == b.name
  {
    LessAsymmetric(a.name, b.name);
    LessTotal(a.name, b.name);
    LessIrreflexive(a.name);
    if b.count == a.count then
      if Less(a.name, b.name) then -1
      else if Less(b.name, a.name) then 1
      else 0
    else b.count - a.count
  }

  /** The comparator describes a total preorder: "goes no later than" is transitive, and so is
      "goes strictly earlier". */
  lemma CompareTransitive(a: FriendCount, b: FriendCount, c: FriendCount)
    ensures Compare(a, b) <= 0 && Compare(b, c) <= 0 ==> Compare(a, c) <= 0
    ensures Compare(a, b) < 0 && Compare(b, c) <= 0 ==> Compare(a, c) < 0
    ensures Compare(a, b) <= 0 && Compare(b, c) < 0 ==> Compare(a, c) < 0
  {
    LessTransitive(a.name, b.name, c.name);
  }

  /** No entry is ranked before an entry to its left. */
  ghost predicate Sorted(s: seq<FriendCount>)
  {
    forall i, j | 0 <= i < j < |s| :: Compare(s[i], s[j]) <= 0
  }

  lemma SortedCons(a: FriendCount, t: seq<FriendCount>)
    requires Sorted(t)
    requires forall y | y in t :: Compare(a, y) <= 0
    ensures Sorted([a] + t)
  {
  }

  /** Places `x` before the first entry that ranks strictly after it. */
  function Insert(x: FriendCount, s: seq<FriendCount>): (r: seq<FriendCount>)
    ensures |r| == |s| + 1
    ensures multiset(r) == multiset(s) + multiset{x}
  {
    if s == [] || Compare(s[0], x) > 0 then [x] + s
    else
      assert s == [s[0]] + s[1..];
      [s[0]] + Insert(x, s[1..])
  }

  /** The order in which a stable sort with `Compare` leaves `s`: insertion sort, taking the
      entries from left to right. */
  function Sort(s: seq<FriendCount>): (r: seq<FriendCount>)
    ensures |r| == |s|
    ensures multiset(r) == multiset(s)
  {
    if s == [] then []
    else
      assert s == s[..|s| - 1] + [s[|s| - 1]];
      Insert(s[|s| - 1], Sort(s[..|s| - 1]))
  }

  lemma {:induction false} InsertSorted(x: FriendCount, s: seq<FriendCount>)
    requires Sorted(s)
    ensures Sorted(Insert(x, s))
  {
    if s == [] {
    } else if Compare(s[0], x) > 0 {
      forall y | y in s ensures Compare(x, y) <= 0 {
        CompareTransitive(x, s[0], y);
      }
      SortedCons(x, s);
    } else {
      InsertSorted(x, s[1..]);
      forall y | y in Insert(x, s[1..]) ensures Compare(s[0], y) <= 0 {
        assert y in multiset(Insert(x, s[1..]));
      }
      SortedCons(s[0], Insert(x, s[1..]));
    }
  }

  lemma {:induction false} SortSorted(s: seq<FriendCount>)
    ensures Sorted(Sort(s))
  {
    if s != [] {
      SortSorted(s[..|s| - 1]);
      InsertSorted(s[|s| - 1], Sort(s[..|s| - 1]));
    }
  }

  /** The order `sortData` produces is sorted by rank: count non-increasing, and among equal
      counts names ascending. */
  lemma SortIsSorted(s: seq<FriendCount>)
    ensures forall i, j | 0 <= i < j < |Sort(s)| ::
              Sort(s)[i].count > Sort(s)[j].count
              || (Sort(s)[i].count == Sort(s)[j].count && !Less(Sort(s)[j].name, Sort(s)[i].name))
  {
    SortSorted(s);
  }

  lemma SortedTail(s: seq<FriendCount>)
    requires Sorted(s) && s != []
    ensures Sorted(s[1..])
  {
  }

  /** Where the insertion lands: after every entry that does not rank after `x`. */
  lemma {:induction false} InsertAt(x: FriendCount, s: seq<FriendCount>, j: nat)
    requires Sorted(s) && j <= |s|
    requires forall q | j <= q < |s| :: Compare(s[q], x) > 0
    requires j == 0 || Compare(s[j - 1], x) <= 0
    ensures Insert(x, s) == s[..j] + [x] + s[j..]
  {
    if j > 0 {
      if j > 1 {
        CompareTransitive(s[0], s[j - 1], x);
      }
      assert Compare(s[0], x) <= 0;
      var t := s[1..];
      SortedTail(s);
      assert forall q | j - 1 <= q < |t| :: t[q] == s[q + 1];
      InsertAt(x, t, j - 1);
      SplitAfterHead(s, x, j);
    }
  }

  /** The entry at position `k` once `s[i]` has been moved down to position `j`. */
  function Moved<T>(s: seq<T>, j: nat, i: nat, k: nat): T
    requires j <= i < |s| && k < |s|
  {
    if k < j then s[k] else if k == j then s[i] else if k <= i then s[k - 1] else s[k]
  }

  lemma MovedIsShifted<T>(A: seq<T>, s: seq<T>, j: nat, i: nat)
    requires j <= i < |s| == |A|
    requires forall k | 0 <= k < |A| :: A[k] == Moved(s, j, i, k)
    ensures A == s[..j] + [s[i]] + s[j..i] + s[i + 1..]
  {
  }

  /** One pass of the insertion: moves `a[i]` left past every entry of `a[..i]` that ranks
      strictly after it, by adjacent swaps, and reports where it came to rest. */
  method InsertLast(a: array<FriendCount>, i: nat) returns (j: nat)
    requires i < a.Length
    modifies a
    ensures j <= i
    ensures a[..] == old(a[..])[..j] + [old(a[..])[i]] + old(a[..])[j..i] + old(a[..])[i + 1..]
    ensures forall q | j <= q < i :: Compare(old(a[..])[q], old(a[..])[i]) > 0
    ensures j == 0 || Compare(old(a[..])[j - 1], old(a[..])[i]) <= 0
  {
    ghost var s := a[..];
    j := i;
    while j > 0 && Compare(a[j - 1], a[j]) > 0
      invariant 0 <= j <= i
      invariant forall k | 0 <= k < a.Length :: a[k] == Moved(s, j, i, k)
      invariant forall q | j <= q < i :: Compare(s[q], s[i]) > 0
    {
      assert a[j - 1] == Moved(s, j, i, j - 1) == s[j - 1];
      assert a[j] == Moved(s, j, i, j) == s[i];
      a[j - 1], a[j] := a[j], a[j - 1];
      j := j - 1;
    }
    assert a[j] == Moved(s, j, i, j);
    assert j > 0 ==> a[j - 1] == Moved(s, j, i, j - 1);
    MovedIsShifted(a[..], s, j, i);
  }

  lemma Reassemble<T>(S: seq<T>, p: seq<T>, rest: seq<T>, j: nat)
    requires S == p + rest && j <= |p| < |S|
    ensures S[..j] + [S[|p|]] + S[j..|p|] + S[|p| + 1..] == (p[..j] + [rest[0]] + p[j..]) + rest[1..]
  {
    assert S[..j] == p[..j] && S[j..|p|] == p[j..] && S[|p|] == rest[0] && S[|p| + 1..] == rest[1..];
  }

  lemma SortPrefix(s: seq<FriendCount>, i: nat)
    requires i < |s|
    ensures Sort(s[..i + 1]) == Insert(s[i], Sort(s[..i]))
  {
    assert s[..i + 1][..i] == s[..i];
  }

  lemma InsertStep(sorted: seq<FriendCount>, rest: seq<FriendCount>, S: seq<FriendCount>, A: seq<FriendCount>, j: nat)
    requires Sorted(sorted) && rest != [] && S == sorted + rest && j <= |sorted|
    requires A == S[..j] + [S[|sorted|]] + S[j..|sorted|] + S[|sorted| + 1..]
    requires forall q | j <= q < |sorted| :: Compare(S[q], S[|sorted|]) > 0
    requires j == 0 || Compare(S[j - 1], S[|sorted|]) <= 0
    ensures A == Insert(rest[0], sorted) + rest[1..]
  {
    Reassemble(S, sorted, rest, j);
    assert forall q | 0 <= q < |sorted| :: S[q] == sorted[q];
    InsertAt(rest[0], sorted, j);
  }

  /** One pass of `InsertLast` extends the sorted prefix by one entry. */
  lemma InsertLastSorts(input: seq<FriendCount>, i: nat, S: seq<FriendCount>, A: seq<FriendCount>, j: nat)
    requires i < |input| && j <= i
    requires S == Sort(input[..i]) + input[i..]
    requires A == S[..j] + [S[i]] + S[j..i] + S[i + 1..]
    requires forall q | j <= q < i :: Compare(S[q], S[i]) > 0
    requires j == 0 || Compare(S[j - 1], S[i]) <= 0
    ensures A == Sort(input[..i + 1]) + input[i + 1..]
  {
    SortSorted(input[..i]);
    InsertStep(Sort(input[..i]), input[i..], S, A, j);
    SuffixTail(input, i);
    SortPrefix(input, i);
  }

  /** `sortData(array)`: sorts the array in place and returns it. The engine's sort is modelled
      as an insertion sort, which is stable, as `Array.prototype.sort` must be. */
  method SortData(a: array<FriendCount>) returns (r: array<FriendCount>)
    modifies a
    ensures r == a
    ensures a[..] == Sort(old(a[..]))
  {
    ghost var input := a[..];
    var i := 0;
    WholeSlices(input);
    while i < a.Length
      invariant 0 <= i <= a.Length == |input|
      invariant a[..] == Sort(input[..i]) + input[i..]
    {
      ghost var S := a[..];
      var j := InsertLast(a, i);
      InsertLastSorts(input, i, S, a[..], j);
      i := i + 1;
    }
    WholeSlices(input);
    r := a;
  }

  // ---------------------------------------------------------------------------
  // Stability
  // ---------------------------------------------------------------------------

  /** Two entries the comparator cannot tell apart. */
  predicate SameRank(a: FriendCount, b: FriendCount)
  {
    a.count == b.count && a.name == b.name
  }

  /** The entries of `s` that tie with `e`, in their order in `s`. */
  function Tied(s: seq<FriendCount>, e: FriendCount): seq<FriendCount>
  {
    if s == [] then []
    else (if SameRank(s[0], e) then [s[0]] else []) + Tied(s[1..], e)
  }

  lemma {:induction false} TiedAppend(s: seq<FriendCount>, x: FriendCount, e: FriendCount)
    ensures Tied(s + [x], e) == Tied(s, e) + (if SameRank(x, e) then [x] else [])
  {
    if s == [] {
      assert s + [x] == [x];
    } else {
      assert (s + [x])[1..] == s[1..] + [x];
      TiedAppend(s[1..], x, e);
    }
  }

  lemma {:induction false} TiedNone(s: seq<FriendCount>, e: FriendCount)
    requires forall y | y in s :: !SameRank(y, e)
    ensures Tied(s, e) == []
  {
    if s != [] {
      TiedNone(s[1..], e);
    }
  }

  lemma TiedCons(y: FriendCount, t: seq<FriendCount>, e: FriendCount)
    ensures Tied([y] + t, e) == (if SameRank(y, e) then [y] else []) + Tied(t, e)
  {
    assert ([y] + t)[0] == y && ([y] + t)[1..] == t;
  }

  /** Inserting in front of a sorted list whose head ranks strictly after `x`: no entry of the
      list ties with `x`. */
  lemma InsertTiedFront(x: FriendCount, s: seq<FriendCount>, e: FriendCount)
    requires Sorted(s) && s != [] && Compare(s[0], x) > 0
    ensures Tied([x] + s, e) == Tied(s, e) + (if SameRank(x, e) then [x] else [])
  {
    TiedCons(x, s, e);
    if SameRank(x, e) {
      forall y | y in s ensures !SameRank(y, e) {
        CompareTransitive(x, s[0], y);
      }
      TiedNone(s, e);
      assert Tied([x] + s, e) == [x] + [];
    } else {
      assert Tied([x] + s, e) == [] + Tied(s, e);
    }
  }

  /** Inserting behind the head: the head's tie, then the ties of the insertion into the tail. */
  lemma InsertTiedBehind(h: FriendCount, t: seq<FriendCount>, r: seq<FriendCount>, tx: seq<FriendCount>, e: FriendCount)
    requires Tied(r, e) == Tied(t, e) + tx
    ensures Tied([h] + r, e) == Tied([h] + t, e) + tx
  {
    TiedCons(h, r, e);
    TiedCons(h, t, e);
    var t0 := if SameRank(h, e) then [h] else [];
    AppendAssociative(t0, Tied(t, e), tx);
  }

  lemma {:induction false} InsertTied(x: FriendCount, s: seq<FriendCount>, e: FriendCount)
    requires Sorted(s)
    ensures Tied(Insert(x, s), e) == Tied(s, e) + (if SameRank(x, e) then [x] else [])
  {
    var tx := if SameRank(x, e) then [x] else [];
    if s == [] {
      TiedCons(x, [], e);
      assert Insert(x, s) == [x] + [];
      assert Tied(Insert(x, s), e) == tx + [] == Tied(s, e) + tx;
    } else if Compare(s[0], x) > 0 {
      assert Insert(x, s) == [x] + s;
      InsertTiedFront(x, s, e);
    } else {
      var t := s[1..];
      SortedTail(s);
      InsertTied(x, t, e);
      assert Insert(x, s) == [s[0]] + Insert(x, t);
      assert s == [s[0]] + t;
      InsertTiedBehind(s[0], t, Insert(x, t), tx, e);
    }
  }

  /** `sortData` is stable: the entries that tie with any given entry keep their input order. */
  lemma {:induction false} SortIsStable(s: seq<FriendCount>, e: FriendCount)
    ensures Tied(Sort(s), e) == Tied(s, e)
  {
    if s != [] {
      var init := s[..|s| - 1];
      var x := s[|s| - 1];
      LastSplit(s);
      SortIsStable(init, e);
      SortSorted(init);
      InsertTied(x, Sort(init), e);
      TiedAppend(init, x, e);
    }
  }

  /** Of two sorted sequences with the same entries, whose ties with the first one come in the
      same order, the first entries are the same. */
  lemma SortedSameHead(r: seq<FriendCount>, q: seq<FriendCount>)
    requires Sorted(r) && Sorted(q) && r != [] && multiset(r) == multiset(q)
    requires Tied(r, r[0]) == Tied(q, r[0])
    ensures q != [] && q[0] == r[0]
  {
    assert |q| == |multiset(q)| == |multiset(r)| > 0;
    assert r[0] in multiset(q) && q[0] in multiset(r);
    var k :| 0 <= k < |q| && q[k] == r[0];
    var m :| 0 <= m < |r| && r[m] == q[0];
    assert Compare(q[0], r[0]) <= 0 by {
      if k > 0 {
        assert Compare(q[0], q[k]) <= 0;
      }
    }
    assert Compare(r[0], q[0]) <= 0 by {
      if m > 0 {
        assert Compare(r[0], r[m]) <= 0;
      }
    }
    assert SameRank(q[0], r[0]);
    assert Tied(r, r[0]) == [r[0]] + Tied(r[1..], r[0]);
    assert Tied(q, r[0]) == [q[0]] + Tied(q[1..], r[0]);
    assert Tied(q, r[0])[0] == q[0];
  }

  /** Removing the same first entry keeps the ties in the same order. */
  lemma TiedTails(r: seq<FriendCount>, q: seq<FriendCount>, e: FriendCount)
    requires r != [] && q != [] && r[0] == q[0]
    requires Tied(r, e) == Tied(q, e)
    ensures Tied(r[1..], e) == Tied(q[1..], e)
  {
    CancelPrefix(if SameRank(r[0], e) then [r[0]] else [], Tied(r[1..], e), Tied(q[1..], e));
  }

  /** Two sorted sequences with the same entries, whose ties come in the same order, are equal. */
  lemma {:induction false} SortedStableUnique(r: seq<FriendCount>, q: seq<FriendCount>)
    requires Sorted(r) && Sorted(q) && multiset(r) == multiset(q)
    requires forall e :: Tied(r, e) == Tied(q, e)
    ensures r == q
  {
    if r == [] {
      assert |q| == |multiset(q)| == 0;
    } else {
      SortedSameHead(r, q);
      forall e ensures Tied(r[1..], e) == Tied(q[1..], e) {
        TiedTails(r, q, e);
      }
      MultisetTail(r);
      MultisetTail(q);
      SortedTail(r);
      SortedTail(q);
      SortedStableUnique(r[1..], q[1..]);
      HeadAndTail(r, q);
    }
  }

  /** Whatever algorithm the engine uses, a stable sort with this comparator can only produce
      `Sort(s)`: it is the one sorted rearrangement of `s` that keeps the input order of ties. */
  lemma StableSortIsSort(s: seq<FriendCount>, r: seq<FriendCount>)
    requires multiset(r) == multiset(s) && Sorted(r)
    requires forall e :: Tied(r, e) == Tied(s, e)
    ensures r == Sort(s)
  {
    SortSorted(s);
    forall e ensures Tied(Sort(s), e) == Tied(s, e) {
      SortIsStable(s, e);
    }
    SortedStableUnique(r, Sort(s));
  }

  /** Sorting the sorted list again changes nothing. */
  lemma SortIdempotent(s: seq<FriendCount>)
    ensures Sort(Sort(s)) == Sort(s)
  {
    SortSorted(s);
    StableSortIsSort(Sort(s), Sort(s));
  }

  /** How often `x` occurs among the ties of `e`: as often as in `s` when it ties, else never. */
  lemma {:induction false} TiedCount(s: seq<FriendCount>, e: FriendCount, x: FriendCount)
    ensures multiset(Tied(s, e))[x] == if SameRank(x, e) then multiset(s)[x] else 0
  {
    if s != [] {
      TiedCount(s[1..], e, x);
      assert s == [s[0]] + s[1..];
    }
  }

  lemma {:induction false} TiedMember(s: seq<FriendCount>, e: FriendCount, y: FriendCount)
    requires y in Tied(s, e)
    ensures y in s && SameRank(y, e)
  {
    if !SameRank(s[0], e) || y != s[0] {
      TiedMember(s[1..], e, y);
    }
  }

  /** Rearranging a list does not change which entries tie with `e`, counted with multiplicity. */
  lemma TiedSameMultiset(s: seq<FriendCount>, t: seq<FriendCount>, e: FriendCount)
    requires multiset(s) == multiset(t)
    ensures multiset(Tied(s, e)) == multiset(Tied(t, e))
  {
    forall x ensures multiset(Tied(s, e))[x] == multiset(Tied(t, e))[x] {
      TiedCount(s, e, x);
      TiedCount(t, e, x);
    }
  }

  /** With ties only between equal entries, the ties of `e` are the same in any arrangement. */
  lemma SameTies(s: seq<FriendCount>, t: seq<FriendCount>, e: FriendCount)
    requires multiset(s) == multiset(t)
    requires forall i, j | 0 <= i < |s| && 0 <= j < |s| && SameRank(s[i], s[j]) :: s[i] == s[j]
    ensures Tied(s, e) == Tied(t, e)
  {
    var a, b := Tied(s, e), Tied(t, e);
    TiedSameMultiset(s, t, e);
    assert |a| == |b| by {
      assert |a| == |multiset(a)| && |b| == |multiset(b)|;
    }
    forall k | 0 <= k < |a| ensures a[k] == b[k] {
      TiedMember(s, e, a[k]);
      TiedMember(t, e, b[k]);
      assert b[k] in multiset(s);
      var i :| 0 <= i < |s| && s[i] == a[k];
      var j :| 0 <= j < |s| && s[j] == b[k];
      assert SameRank(s[i], s[j]);
    }
  }

  /** The input order matters only among entries with the same count and the same name: when
      no two different entries tie, every arrangement of them sorts to the same list. */
  lemma SortIgnoresInputOrder(s: seq<FriendCount>, t: seq<FriendCount>)
    requires multiset(s) == multiset(t)
    requires forall i, j | 0 <= i < |s| && 0 <= j < |s| && SameRank(s[i], s[j]) :: s[i] == s[j]
    ensures Sort(s) == Sort(t)
  {
    forall e ensures Tied(Sort(s), e) == Tied(t, e) {
      SortIsStable(s, e);
      SameTies(s, t, e);
    }
    SortSorted(s);
    StableSortIsSort(t, Sort(s));
  }

  // ---------------------------------------------------------------------------
  // getTopUsers
  // ---------------------------------------------------------------------------

  /** `getTopUsers(friendsList)`: the names of the first three entries, fewer when the list is
      shorter, never padded. */
  function TopUsers(list: seq<FriendCount>): (names: seq<JsString>)
    ensures |names| == if |list| < 3 then |list| else 3
    ensures forall i | 0 <= i < |names| :: names[i] == list[i].name
  {
    var top := if |list| < 3 then list else list[..3];
    seq(|top|, i requires 0 <= i < |top| => top[i].name)
  }

  /** On the sorted list, the top names belong to entries that no other entry outranks: every
      entry left out has fewer references, or as many and a name that is not smaller. */
  lemma TopUsersAreMostReferenced(list: seq<FriendCount>)
    ensures var ranked := Sort(list);
      && multiset(ranked) == multiset(list)
      && |TopUsers(ranked)| == (if |list| < 3 then |list| else 3)
      && forall i, j | 0 <= i < |TopUsers(ranked)| <= j < |ranked| ::
           TopUsers(ranked)[i] == ranked[i].name
           && (ranked[i].count > ranked[j].count
               || (ranked[i].count == ranked[j].count && !Less(ranked[j].name, ranked[i].name)))
  {
    SortIsSorted(list);
  }
}
