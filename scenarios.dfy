/** Worked examples on concrete data: the three-user directory and the name tie-break. */
module Scenarios {
  import opened Users
  import opened Indexer
  import opened Ranking

  /** User 1 ("A") is the friend of 2 and 3, and has 2 and 3 as friends. */
  function ThreeUsers(): seq<UserRecord>
  {
    [UserRecord(1, [65], [2, 3]), UserRecord(2, [66], [1]), UserRecord(3, [67], [1])]
  }

  function ThreeUsersIndex(): map<int, UserInfo>
  {
    map[1 := UserInfo([65], [2, 3]), 2 := UserInfo([66], [1]), 3 := UserInfo([67], [1])]
  }

  /** The entries `prepareData` builds for the three users, before sorting. */
  function ThreeUsersCounts(): seq<FriendCount>
  {
    [FriendCount(1, 2, [65]), FriendCount(2, 1, [66]), FriendCount(3, 1, [67])]
  }

  /** The nested loops meet the friend ids in the order 2, 3, 1, 1. */
  lemma ThreeUsersFlatten()
    ensures Flatten(ThreeUsers()) == [2, 3, 1, 1]
    ensures Index(ThreeUsers()) == ThreeUsersIndex()
  {
    var records := ThreeUsers();
    var r1 := [records[0]];
    var r2 := [records[0], records[1]];
    assert r1[..0] == [] && r2[..1] == r1 && records[..2] == r2;
    assert Flatten(r1) == [2, 3];
    assert Flatten(r2) == [2, 3, 1];
    assert Index(r1) == map[1 := UserInfo([65], [2, 3])];
    assert Index(r2) == map[1 := UserInfo([65], [2, 3]), 2 := UserInfo([66], [1])];
  }

  /** The counter gains its properties in the order of first reference: 2, 3, 1. */
  lemma ThreeUsersCreationOrder()
    ensures Dedup([2, 3, 1, 1]) == [2, 3, 1]
  {
    assert Dedup([2]) == [2] by {
      assert [2][..0] == [];
    }
    assert Dedup([2, 3]) == [2, 3] by {
      assert [2, 3][..1] == [2];
    }
    assert Dedup([2, 3, 1]) == [2, 3, 1] by {
      assert [2, 3, 1][..2] == [2, 3];
    }
    assert [2, 3, 1, 1][..3] == [2, 3, 1];
  }

  lemma ThreeUsersIndexKeysTail()
    ensures AscendingIndexKeys([3, 1]) == [1, 3]
  {
    assert AscendingIndexKeys([1]) == [1] by {
      assert [1][1..] == [];
    }
    assert [3, 1][1..] == [1];
    assert InsertAscending(3, [1]) == [1, 3] by {
      assert [1][1..] == [];
    }
  }

  /** The array-index keys among 2, 3, 1, ascending. */
  lemma ThreeUsersIndexKeys()
    ensures AscendingIndexKeys([2, 3, 1]) == [1, 2, 3]
  {
    ThreeUsersIndexKeysTail();
    assert [2, 3, 1][1..] == [3, 1];
    assert InsertAscending(2, [1, 3]) == [1, 2, 3] by {
      assert [1, 3][1..] == [3];
      assert InsertAscending(2, [3]) == [2, 3];
    }
  }

  lemma ThreeUsersOtherKeys()
    ensures NonIndexKeys([2, 3, 1]) == []
  {
    assert [2, 3, 1][1..] == [3, 1] && [3, 1][1..] == [1] && [1][1..] == [];
  }

  /** `Object.keys` lists the integer keys ascending, whatever their creation order. */
  lemma ThreeUsersKeys()
    ensures Dedup(Flatten(ThreeUsers())) == [2, 3, 1]
    ensures FriendKeys(ThreeUsers()) == [1, 2, 3]
  {
    ThreeUsersFlatten();
    ThreeUsersCreationOrder();
    ThreeUsersIndexKeys();
    ThreeUsersOtherKeys();
  }

  /** Resolving the keys 1, 2, 3 against the dictionary, with their counts. */
  lemma ThreeUsersResolve()
    ensures Resolve([1, 2, 3], multiset([2, 3, 1, 1]), ThreeUsersIndex()) == Ok(ThreeUsersCounts())
  {
    var m := multiset([2, 3, 1, 1]);
    var index := ThreeUsersIndex();
    assert m[1] == 2 && m[2] == 1 && m[3] == 1;
    assert index[1].name == [65] && index[2].name == [66] && index[3].name == [67];
    var e1, e2, e3 := FriendCount(1, 2, [65]), FriendCount(2, 1, [66]), FriendCount(3, 1, [67]);
    assert Resolve([1], m, index) == Ok([e1]) by {
      assert [1][..0] == [] && Resolve([], m, index) == Ok([]);
      assert [] + [e1] == [e1];
    }
    assert Resolve([1, 2], m, index) == Ok([e1, e2]) by {
      assert [1, 2][..1] == [1];
      assert [e1] + [e2] == [e1, e2];
    }
    assert [1, 2, 3][..2] == [1, 2];
    assert [e1, e2] + [e3] == ThreeUsersCounts();
  }

  /** `prepareData` on the three users: user 1 is referenced twice, users 2 and 3 once, and the
      entries come in id order. */
  lemma ThreeUsersPrepared()
    ensures Prepare(ThreeUsers()) == Ok(Prepared(ThreeUsersIndex(), ThreeUsersCounts()))
  {
    ThreeUsersFlatten();
    ThreeUsersKeys();
    ThreeUsersResolve();
  }

  /** Two entries in rank order stay as they are. */
  lemma SortTwo(a: FriendCount, b: FriendCount)
    requires Compare(a, b) <= 0
    ensures Sort([a, b]) == [a, b]
  {
    assert [a, b][..1] == [a] && [a][..0] == [] && [a][1..] == [];
  }

  /** Two entries out of rank order are swapped. */
  lemma SortTwoSwapped(a: FriendCount, b: FriendCount)
    requires Compare(a, b) > 0
    ensures Sort([a, b]) == [b, a]
  {
    assert [a, b][..1] == [a] && [a][..0] == [];
  }

  /** Three entries in rank order stay as they are. */
  lemma SortThree(a: FriendCount, b: FriendCount, c: FriendCount)
    requires Compare(a, b) <= 0 && Compare(b, c) <= 0
    ensures Sort([a, b, c]) == [a, b, c]
  {
    var s := [a, b, c];
    CompareTransitive(a, b, c);
    assert Sorted(s);
    StableSortIsSort(s, s);
  }

  /** The entries are already in rank order: "A" first with two references, then "B" before "C"
      by name. */
  lemma ThreeUsersSorted()
    ensures Sort(ThreeUsersCounts()) == ThreeUsersCounts()
  {
    var list := ThreeUsersCounts();
    var a, b, c := list[0], list[1], list[2];
    assert Compare(a, b) < 0 && Compare(b, c) < 0;
    SortThree(a, b, c);
    assert list == [a, b, c];
  }

  /** Ranked and cut to three, the names are "A", "B", "C". */
  lemma ThreeUsersTop()
    ensures TopUsers(Sort(ThreeUsersCounts())) == [[65], [66], [67]]
  {
    ThreeUsersSorted();
    TopOfThree(ThreeUsersCounts());
  }

  lemma TopOfThree(list: seq<FriendCount>)
    requires |list| == 3
    ensures TopUsers(list) == [list[0].name, list[1].name, list[2].name]
  {
  }

  /** With equal counts, "Alice" ranks before "Bob" whichever of them comes first. */
  lemma AliceBeforeBob(count: nat, idAlice: int, idBob: int)
    ensures var alice := FriendCount(idAlice, count, [65, 108, 105, 99, 101]);
      var bob := FriendCount(idBob, count, [66, 111, 98]);
      Sort([alice, bob]) == [alice, bob] && Sort([bob, alice]) == [alice, bob]
  {
    var alice := FriendCount(idAlice, count, [65, 108, 105, 99, 101]);
    var bob := FriendCount(idBob, count, [66, 111, 98]);
    SortTwo(alice, bob);
    SortTwoSwapped(bob, alice);
  }
}
