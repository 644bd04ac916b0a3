/** `prepareData`: one pass over the fetched records builds the id -> {name, friends}
    dictionary and counts how often every id is referenced from a friends list. */
module Indexer {
  import opened Users
  import opened Sequences

  /** What `prepareData` returns: `{objectData, friendsList}`. */
  datatype Prepared = Prepared(objectData: map<int, UserInfo>, friendsList: seq<FriendCount>)

  // ---------------------------------------------------------------------------
  // The dictionary objectData
  // ---------------------------------------------------------------------------

  /** The ids of all records. */
  ghost function RecordIds(records: seq<UserRecord>): set<int>
  {
    set i | 0 <= i < |records| :: records[i].id
  }

  lemma RecordIdsSnoc(records: seq<UserRecord>)
    requires records != []
    ensures RecordIds(records) == RecordIds(records[..|records| - 1]) + {records[|records| - 1].id}
  {
    var init := records[..|records| - 1];
    forall x | x in RecordIds(records) ensures x in RecordIds(init) + {records[|records| - 1].id} {
      var i :| 0 <= i < |records| && records[i].id == x;
      if i < |init| {
        assert init[i].id == x;
      }
    }
    forall x | x in RecordIds(init) ensures x in RecordIds(records) {
      var i :| 0 <= i < |init| && init[i].id == x;
      assert records[i].id == x;
    }
  }

  /** No later record carries the same id as `records[i]`. */
  ghost predicate LastWithId(records: seq<UserRecord>, i: int)
    requires 0 <= i < |records|
  {
    forall j | i < j < |records| :: records[j].id != records[i].id
  }

  /** `objectData` after the records have been stored one after the other: every record id is
      a key, and a repeated id holds the data of the last record that carries it. */
  function Index(records: seq<UserRecord>): (index: map<int, UserInfo>)
    ensures index.Keys == RecordIds(records)
    ensures forall i | 0 <= i < |records| && LastWithId(records, i) :: index[records[i].id] == Info(records[i])
  {
    if records == [] then map[]
    else
      var init := records[..|records| - 1];
      var last := records[|records| - 1];
      assert forall i | 0 <= i < |init| :: init[i] == records[i];
      RecordIdsSnoc(records);
      StoreLast(records, Index(init));
      Index(init)[last.id := Info(last)]
  }

  /** Storing the last record on top of the dictionary of the others leaves every record that
      carries the last occurrence of its id visible. */
  lemma StoreLast(records: seq<UserRecord>, prev: map<int, UserInfo>)
    requires records != []
    requires var init := records[..|records| - 1];
      forall i | 0 <= i < |init| && LastWithId(init, i) :: init[i].id in prev && prev[init[i].id] == Info(init[i])
    ensures var last := records[|records| - 1];
      forall i | 0 <= i < |records| && LastWithId(records, i) :: prev[last.id := Info(last)][records[i].id] == Info(records[i])
  {
    var init := records[..|records| - 1];
    var last := records[|records| - 1];
    forall i | 0 <= i < |records| && LastWithId(records, i)
      ensures prev[last.id := Info(last)][records[i].id] == Info(records[i])
    {
      if i < |init| {
        assert records[i] == init[i];
        assert records[i].id != last.id;
        forall j | i < j < |init| ensures init[j].id != init[i].id {
          assert init[j] == records[j];
        }
        assert LastWithId(init, i);
      }
    }
  }

  /** Every key of `objectData` holds the data of a record carrying that id, the last one. */
  lemma {:induction false} IndexKeyHasLastRecord(records: seq<UserRecord>, k: int)
    requires k in RecordIds(records)
    ensures exists i | 0 <= i < |records| :: records[i].id == k && LastWithId(records, i)
  {
    var init := records[..|records| - 1];
    assert forall j | 0 <= j < |init| :: init[j] == records[j];
    if records[|records| - 1].id != k {
      RecordIdsSnoc(records);
      IndexKeyHasLastRecord(init, k);
      var i :| 0 <= i < |init| && init[i].id == k && LastWithId(init, i);
      assert forall j | i < j < |init| :: init[j].id != k;
      assert LastWithId(records, i);
    } else {
      assert LastWithId(records, |records| - 1);
    }
  }

  // ---------------------------------------------------------------------------
  // Friend references and their counts
  // ---------------------------------------------------------------------------

  /** Every friend-id occurrence, record after record, each friends list in its own order:
      the order in which the nested loops visit them. */
  function Flatten(records: seq<UserRecord>): seq<int>
  {
    if records == [] then []
    else Flatten(records[..|records| - 1]) + records[|records| - 1].friends
  }

  /** The ids that occur in at least one friends list. */
  ghost function ReferencedIds(records: seq<UserRecord>): set<int>
  {
    set i, j | 0 <= i < |records| && 0 <= j < |records[i].friends| :: records[i].friends[j]
  }

  lemma ReferencedIdsHas(records: seq<UserRecord>, i: nat, j: nat)
    requires i < |records| && j < |records[i].friends|
    ensures records[i].friends[j] in ReferencedIds(records)
  {
  }

  /** The number of times `x` occurs in `s`. */
  function CountIn(s: seq<int>, x: int): nat
  {
    if s == [] then 0
    else CountIn(s[..|s| - 1], x) + (if s[|s| - 1] == x then 1 else 0)
  }

  /** The number of times `x` occurs across all friends lists, record by record. */
  function Occurrences(records: seq<UserRecord>, x: int): nat
  {
    if records == [] then 0
    else Occurrences(records[..|records| - 1], x) + CountIn(records[|records| - 1].friends, x)
  }

  /** The total number of friend-id occurrences. */
  function TotalRefs(records: seq<UserRecord>): nat
  {
    if records == [] then 0
    else TotalRefs(records[..|records| - 1]) + |records[|records| - 1].friends|
  }

  function SumCounts(list: seq<FriendCount>): nat
  {
    if list == [] then 0
    else SumCounts(list[..|list| - 1]) + list[|list| - 1].count
  }

  // ---------------------------------------------------------------------------
  // The order of Object.keys(ObjectFriends)
  // ---------------------------------------------------------------------------

  /** The distinct elements of `s` in the order of their first occurrence: the order in which
      the counter object gains its properties. */
  function Dedup(s: seq<int>): (d: seq<int>)
    ensures forall x :: x in d <==> x in s
    ensures Distinct(d)
  {
    if s == [] then []
    else
      var d := Dedup(s[..|s| - 1]);
      if s[|s| - 1] in s[..|s| - 1] then d else d + [s[|s| - 1]]
  }

  lemma DedupSnoc(s: seq<int>, f: int)
    ensures Dedup(s + [f]) == if f in s then Dedup(s) else Dedup(s) + [f]
  {
    assert (s + [f])[..|s|] == s;
  }

  lemma ExtendSeen(seen0: seq<int>, s: seq<int>, j: nat)
    requires j < |s|
    ensures (seen0 + s[..j]) + [s[j]] == seen0 + s[..j + 1]
  {
    assert s[..j + 1] == s[..j] + [s[j]];
  }

  lemma FlattenPrefix(records: seq<UserRecord>, i: nat)
    requires i < |records|
    ensures Flatten(records[..i + 1]) == Flatten(records[..i]) + records[i].friends
  {
    assert records[..i + 1][..i] == records[..i];
  }

  /** A property key that is an array index (ECMAScript: an integer in [0, 2^32 - 2]). */
  predicate IsArrayIndex(k: int)
  {
    0 <= k < 0xFFFF_FFFF
  }

  ghost predicate Increasing(s: seq<int>)
  {
    forall i, j | 0 <= i < j < |s| :: s[i] < s[j]
  }

  /** Places `x` into the ascending sequence `s`. */
  function InsertAscending(x: int, s: seq<int>): (r: seq<int>)
    requires Increasing(s) && x !in s
    ensures Increasing(r)
    ensures forall y :: y in r <==> y == x || y in s
  {
    if s == [] || x < s[0] then [x] + s
    else
      var rest := InsertAscending(x, s[1..]);
      AboveHead(s, x, rest);
      [s[0]] + rest
  }

  lemma AboveHead(s: seq<int>, x: int, rest: seq<int>)
    requires Increasing(s) && s != [] && s[0] < x
    requires forall y :: y in rest <==> y == x || y in s[1..]
    ensures forall j | 0 <= j < |rest| :: s[0] < rest[j]
  {
    forall j | 0 <= j < |rest| ensures s[0] < rest[j] {
      assert rest[j] in rest;
      if rest[j] != x {
        var k :| 0 <= k < |s[1..]| && s[1..][k] == rest[j];
        assert s[k + 1] == rest[j];
      }
    }
  }

  /** The array-index keys among `order`, in ascending numeric order. */
  function AscendingIndexKeys(order: seq<int>): (r: seq<int>)
    requires Distinct(order)
    ensures Increasing(r)
    ensures forall x :: x in r <==> x in order && IsArrayIndex(x)
  {
    if order == [] then []
    else
      var rest := AscendingIndexKeys(order[1..]);
      if IsArrayIndex(order[0]) then InsertAscending(order[0], rest) else rest
  }

  /** The keys of `s` that are not array indices, in their order in `s`. */
  function NonIndexKeys(s: seq<int>): (r: seq<int>)
    ensures forall x :: x in r <==> x in s && !IsArrayIndex(x)
    ensures Distinct(s) ==> Distinct(r)
  {
    if s == [] then []
    else
      var rest := NonIndexKeys(s[1..]);
      assert Distinct(s) ==> Distinct(s[1..]) && s[0] !in rest;
      (if IsArrayIndex(s[0]) then [] else [s[0]]) + rest
  }

  lemma NonIndexKeysCons(x: int, t: seq<int>)
    ensures NonIndexKeys([x] + t) == (if IsArrayIndex(x) then [] else [x]) + NonIndexKeys(t)
  {
    assert ([x] + t)[0] == x && ([x] + t)[1..] == t;
  }

  lemma {:induction false} NonIndexKeysAppend(a: seq<int>, b: seq<int>)
    ensures NonIndexKeys(a + b) == NonIndexKeys(a) + NonIndexKeys(b)
  {
    if a == [] {
      assert a + b == b;
    } else {
      var t := a[1..];
      var h := if IsArrayIndex(a[0]) then [] else [a[0]];
      assert a == [a[0]] + t;
      assert a + b == [a[0]] + (t + b);
      NonIndexKeysCons(a[0], t + b);
      NonIndexKeysCons(a[0], t);
      NonIndexKeysAppend(t, b);
      AppendAssociative(h, NonIndexKeys(t), NonIndexKeys(b));
    }
  }

  lemma {:induction false} NonIndexKeysOfIndices(s: seq<int>)
    requires forall i | 0 <= i < |s| :: IsArrayIndex(s[i])
    ensures NonIndexKeys(s) == []
  {
    if s != [] {
      NonIndexKeysOfIndices(s[1..]);
    }
  }

  lemma {:induction false} NonIndexKeysIdempotent(s: seq<int>)
    ensures NonIndexKeys(NonIndexKeys(s)) == NonIndexKeys(s)
  {
    if s != [] {
      NonIndexKeysIdempotent(s[1..]);
      var rest := NonIndexKeys(s[1..]);
      if IsArrayIndex(s[0]) {
        assert NonIndexKeys(s) == [] + rest == rest;
      } else {
        var r := [s[0]] + rest;
        assert NonIndexKeys(s) == r;
        assert r[0] == s[0] && r[1..] == rest;
        assert NonIndexKeys(r) == [s[0]] + NonIndexKeys(rest);
      }
    }
  }

  lemma IndicesThenOthers(indices: seq<int>, others: seq<int>)
    requires Increasing(indices) && Distinct(others)
    requires forall i | 0 <= i < |indices| :: IsArrayIndex(indices[i])
    requires forall i | 0 <= i < |others| :: !IsArrayIndex(others[i])
    ensures Distinct(indices + others)
    ensures var keys := indices + others;
      forall i, j | 0 <= i < j < |keys| && IsArrayIndex(keys[j]) :: IsArrayIndex(keys[i]) && keys[i] < keys[j]
  {
    var keys := indices + others;
    forall i, j | 0 <= i < j < |keys| ensures keys[i] != keys[j] {
      if j < |indices| {
        assert keys[i] == indices[i] && keys[j] == indices[j];
      } else if i >= |indices| {
        assert keys[i] == others[i - |indices|] && keys[j] == others[j - |indices|];
      } else {
        assert IsArrayIndex(keys[i]) && !IsArrayIndex(keys[j]);
      }
    }
    forall i, j | 0 <= i < j < |keys| && IsArrayIndex(keys[j]) ensures IsArrayIndex(keys[i]) && keys[i] < keys[j] {
      assert j < |indices|;
      assert keys[i] == indices[i] && keys[j] == indices[j];
    }
  }

  /** `Object.keys` of an object whose properties were created in the order `order`
      (ECMAScript OrdinaryOwnPropertyKeys): the array-index keys in ascending numeric order,
      then the other keys in creation order. */
  function ObjectKeys(order: seq<int>): (keys: seq<int>)
    requires Distinct(order)
    ensures forall x :: x in keys <==> x in order
    ensures Distinct(keys)
    ensures forall i, j | 0 <= i < j < |keys| && IsArrayIndex(keys[j]) :: IsArrayIndex(keys[i]) && keys[i] < keys[j]
    ensures NonIndexKeys(keys) == NonIndexKeys(order)
  {
    var indices := AscendingIndexKeys(order);
    var others := NonIndexKeys(order);
    assert forall i | 0 <= i < |indices| :: indices[i] in indices && IsArrayIndex(indices[i]);
    assert forall i | 0 <= i < |others| :: others[i] in others && !IsArrayIndex(others[i]);
    IndicesThenOthers(indices, others);
    NonIndexKeysAppend(indices, others);
    NonIndexKeysOfIndices(indices);
    NonIndexKeysIdempotent(order);
    indices + others
  }

  /** The order of the entries of `friendsList`: the keys of the counter object. */
  function FriendKeys(records: seq<UserRecord>): seq<int>
  {
    ObjectKeys(Dedup(Flatten(records)))
  }

  // ---------------------------------------------------------------------------
  // friendsList
  // ---------------------------------------------------------------------------

  /** `keys.map(item => ({id: item, count: counts[item], name: index[item].name}))`, which
      throws at the first key that is not a key of `index`. */
  function Resolve(keys: seq<int>, counts: multiset<int>, index: map<int, UserInfo>): (r: Result<seq<FriendCount>>)
    ensures r.Ok? <==> forall i | 0 <= i < |keys| :: keys[i] in index
    ensures r.Ok? ==> |r.value| == |keys|
    ensures r.Ok? ==> forall i | 0 <= i < |keys| ::
              keys[i] in index && r.value[i] == FriendCount(keys[i], counts[keys[i]], index[keys[i]].name)
    ensures r.UnknownId? ==> exists i | 0 <= i < |keys| ::
              keys[i] == r.id && r.id !in index && forall j | 0 <= j < i :: keys[j] in index
  {
    if keys == [] then Ok([])
    else
      var init := keys[..|keys| - 1];
      var last := keys[|keys| - 1];
      assert forall i | 0 <= i < |init| :: init[i] == keys[i];
      match Resolve(init, counts, index)
      case UnknownId(id) => UnknownId(id)
      case Ok(list) =>
        if last in index then Ok(list + [FriendCount(last, counts[last], index[last].name)])
        else UnknownId(last)
  }

  /** The entries of a successful resolution carry the keys, in order. */
  lemma ResolveIds(keys: seq<int>, counts: multiset<int>, index: map<int, UserInfo>)
    requires Resolve(keys, counts, index).Ok?
    ensures Ids(Resolve(keys, counts, index).value) == keys
  {
  }

  /** Every entry of a successful resolution is the entry of one of the keys. */
  lemma ResolveEntries(keys: seq<int>, counts: multiset<int>, index: map<int, UserInfo>)
    requires Resolve(keys, counts, index).Ok?
    ensures forall e | e in Resolve(keys, counts, index).value ::
              e.id in keys && e.id in index && e == FriendCount(e.id, counts[e.id], index[e.id].name)
  {
    var list := Resolve(keys, counts, index).value;
    forall e | e in list
      ensures e.id in keys && e.id in index && e == FriendCount(e.id, counts[e.id], index[e.id].name)
    {
      var q :| 0 <= q < |list| && list[q] == e;
      assert keys[q] in keys;
    }
  }

  lemma ResolveKeepsError(keys: seq<int>, m: nat, counts: multiset<int>, index: map<int, UserInfo>)
    requires m <= |keys|
    requires Resolve(keys[..m], counts, index).UnknownId?
    ensures Resolve(keys, counts, index) == Resolve(keys[..m], counts, index)
  {
  }

  /** The specification of `prepareData`: the dictionary of the records, and one entry per key
      of the counter object, in `Object.keys` order, whose name is looked up in the dictionary. */
  function Prepare(records: seq<UserRecord>): Result<Prepared>
  {
    var index := Index(records);
    var refs := Flatten(records);
    match Resolve(FriendKeys(records), multiset(refs), index)
    case Ok(list) => Ok(Prepared(index, list))
    case UnknownId(id) => UnknownId(id)
  }

  /** The counter object after the friend ids `seen` have been counted: a property for each id
      seen, holding the number of times it was seen. */
  ghost predicate Tallies(counter: map<int, nat>, seen: seq<int>)
  {
    && (forall x :: x in counter <==> x in seen)
    && (forall x | x in counter :: counter[x] == multiset(seen)[x])
  }

  /** Counting one more occurrence: a new property at 1, or the existing one plus 1. */
  lemma TalliesStep(counter: map<int, nat>, seen: seq<int>, friend: int)
    requires Tallies(counter, seen)
    ensures friend !in counter ==> Tallies(counter[friend := 1], seen + [friend])
    ensures friend in counter ==> Tallies(counter[friend := counter[friend] + 1], seen + [friend])
  {
    assert multiset(seen + [friend]) == multiset(seen) + multiset{friend};
  }

  /** One step of the inner loop: a new id gets a property at 1 and joins the key order; a
      known one is bumped and the order stays. */
  lemma CountStep(counter: map<int, nat>, order: seq<int>, seen: seq<int>, friend: int)
    requires order == Dedup(seen) && Tallies(counter, seen)
    ensures friend !in counter ==>
              order + [friend] == Dedup(seen + [friend]) && Tallies(counter[friend := 1], seen + [friend])
    ensures friend in counter ==>
              order == Dedup(seen + [friend]) && Tallies(counter[friend := counter[friend] + 1], seen + [friend])
  {
    TalliesStep(counter, seen, friend);
    DedupSnoc(seen, friend);
  }

  /** The inner `item.friends.forEach`: bumps the counter of every friend id, creating it
      (and so a new property of the counter object) on the first occurrence. */
  method CountFriends(counter0: map<int, nat>, order0: seq<int>, friends: seq<int>, ghost seen0: seq<int>)
    returns (counter: map<int, nat>, order: seq<int>)
    requires order0 == Dedup(seen0)
    requires Tallies(counter0, seen0)
    ensures order == Dedup(seen0 + friends)
    ensures Tallies(counter, seen0 + friends)
  {
    counter, order := counter0, order0;
    ghost var seen := seen0;
    var j := 0;
    while j < |friends|
      invariant 0 <= j <= |friends|
      invariant seen == seen0 + friends[..j]
      invariant order == Dedup(seen)
      invariant Tallies(counter, seen)
    {
      var friend := friends[j];
      CountStep(counter, order, seen, friend);
      if friend !in counter {
        counter := counter[friend := 1];
        order := order + [friend];
      } else {
        counter := counter[friend := counter[friend] + 1];
      }
      ExtendSeen(seen0, friends, j);
      seen := seen + [friend];
      j := j + 1;
    }
    assert friends[..j] == friends;
  }

  /** `Object.keys(ObjectFriends).map(...)`: one `{id, count, name}` per key, the name read
      from `objectData`, which throws at the first key that is not a record id. */
  method BuildFriendsList(keys: seq<int>, counter: map<int, nat>, objectData: map<int, UserInfo>, ghost counts: multiset<int>)
    returns (r: Result<seq<FriendCount>>)
    requires forall i | 0 <= i < |keys| :: keys[i] in counter && counter[keys[i]] == counts[keys[i]]
    ensures r == Resolve(keys, counts, objectData)
  {
    var friendsList: seq<FriendCount> := [];
    var k := 0;
    while k < |keys|
      invariant 0 <= k <= |keys|
      invariant Resolve(keys[..k], counts, objectData) == Ok(friendsList)
    {
      var id := keys[k];
      assert keys[..k + 1][..k] == keys[..k];
      if id !in objectData {
        ResolveKeepsError(keys, k + 1, counts, objectData);
        return UnknownId(id);
      }
      friendsList := friendsList + [FriendCount(id, counter[id], objectData[id].name)];
      k := k + 1;
    }
    assert keys[..k] == keys;
    r := Ok(friendsList);
  }

  lemma IndexPrefix(records: seq<UserRecord>, i: nat)
    requires i < |records|
    ensures Index(records[..i + 1]) == Index(records[..i])[records[i].id := Info(records[i])]
  {
    assert records[..i + 1][..i] == records[..i];
  }

  /** Every key of the counter object, once all friend ids are counted, holds its tally. */
  lemma KeysCounted(order: seq<int>, counter: map<int, nat>, seen: seq<int>)
    requires order == Dedup(seen) && Tallies(counter, seen)
    ensures forall i | 0 <= i < |ObjectKeys(order)| ::
              ObjectKeys(order)[i] in counter && counter[ObjectKeys(order)[i]] == multiset(seen)[ObjectKeys(order)[i]]
  {
    var keys := ObjectKeys(order);
    forall i | 0 <= i < |keys| ensures keys[i] in counter {
      assert keys[i] in keys;
    }
  }

  /** `prepareData(array)`: the nested loops fill `objectData` and the counter `ObjectFriends`,
      then the keys of the counter are mapped to `{id, count, name}`. */
  method PrepareData(records: seq<UserRecord>) returns (r: Result<Prepared>)
    ensures r == Prepare(records)
  {
    var objectData: map<int, UserInfo> := map[];
    var counter: map<int, nat> := map[];
    // the order in which the counter object gained its properties
    var order: seq<int> := [];
    ghost var seen: seq<int> := [];
    var i := 0;
    while i < |records|
      invariant 0 <= i <= |records|
      invariant objectData == Index(records[..i])
      invariant seen == Flatten(records[..i])
      invariant order == Dedup(seen)
      invariant Tallies(counter, seen)
    {
      var item := records[i];
      IndexPrefix(records, i);
      FlattenPrefix(records, i);
      objectData := objectData[item.id := Info(item)];
      counter, order := CountFriends(counter, order, item.friends, seen);
      seen := seen + item.friends;
      i := i + 1;
    }
    assert records[..i] == records;
    var keys := ObjectKeys(order);
    KeysCounted(order, counter, seen);
    var friendsList := BuildFriendsList(keys, counter, objectData, multiset(seen));
    match friendsList
    case UnknownId(id) =>
      r := UnknownId(id);
    case Ok(list) =>
      r := Ok(Prepared(objectData, list));
  }

  // ---------------------------------------------------------------------------
  // What prepareData guarantees
  // ---------------------------------------------------------------------------

  lemma {:induction false} CountInIsMultiplicity(s: seq<int>, x: int)
    ensures CountIn(s, x) == multiset(s)[x]
  {
    if s != [] {
      CountInIsMultiplicity(s[..|s| - 1], x);
      assert s == s[..|s| - 1] + [s[|s| - 1]];
    }
  }

  /** Counting occurrences record by record agrees with the multiplicity in the flattened references. */
  lemma {:induction false} OccurrencesIsMultiplicity(records: seq<UserRecord>, x: int)
    ensures Occurrences(records, x) == multiset(Flatten(records))[x]
  {
    if records != [] {
      var init := records[..|records| - 1];
      var last := records[|records| - 1];
      OccurrencesIsMultiplicity(init, x);
      CountInIsMultiplicity(last.friends, x);
      assert multiset(Flatten(records)) == multiset(Flatten(init)) + multiset(last.friends);
    }
  }

  lemma {:induction false} FlattenLength(records: seq<UserRecord>)
    ensures |Flatten(records)| == TotalRefs(records)
  {
    if records != [] {
      FlattenLength(records[..|records| - 1]);
    }
  }

  lemma {:induction false} FlattenElements(records: seq<UserRecord>)
    ensures forall x :: x in Flatten(records) <==> x in ReferencedIds(records)
  {
    if records != [] {
      var init := records[..|records| - 1];
      var last := records[|records| - 1];
      FlattenElements(init);
      forall x | x in Flatten(records) ensures x in ReferencedIds(records) {
        if x in Flatten(init) {
          var i, j :| 0 <= i < |init| && 0 <= j < |init[i].friends| && init[i].friends[j] == x;
          assert records[i].friends[j] == x;
        } else {
          var j :| 0 <= j < |last.friends| && last.friends[j] == x;
          assert records[|records| - 1].friends[j] == x;
        }
      }
      forall x | x in ReferencedIds(records) ensures x in Flatten(records) {
        var i, j :| 0 <= i < |records| && 0 <= j < |records[i].friends| && records[i].friends[j] == x;
        if i < |init| {
          assert init[i].friends[j] == x;
        } else {
          assert x in last.friends;
        }
      }
    }
  }

  /** The sum of the multiplicities in `m` of the elements of `keys`. */
  function SumOver(keys: seq<int>, m: multiset<int>): nat
  {
    if keys == [] then 0 else SumOver(keys[..|keys| - 1], m) + m[keys[|keys| - 1]]
  }

  lemma {:induction false} SumOverEmpty(keys: seq<int>)
    ensures SumOver(keys, multiset{}) == 0
  {
    if keys != [] {
      SumOverEmpty(keys[..|keys| - 1]);
    }
  }

  lemma {:induction false} SumOverAddOne(keys: seq<int>, m: multiset<int>, x: int)
    requires Distinct(keys)
    ensures SumOver(keys, m + multiset{x}) == SumOver(keys, m) + (if x in keys then 1 else 0)
  {
    if keys != [] {
      var init := keys[..|keys| - 1];
      var last := keys[|keys| - 1];
      assert forall i | 0 <= i < |init| :: init[i] == keys[i];
      SumOverAddOne(init, m, x);
      assert x in keys <==> x in init || x == last;
      if x == last {
        assert x !in init;
      }
    }
  }

  /** Summing the multiplicities of distinct keys that cover `s` gives the length of `s`. */
  lemma {:induction false} SumOverAll(keys: seq<int>, s: seq<int>)
    requires Distinct(keys)
    requires forall x | x in s :: x in keys
    ensures SumOver(keys, multiset(s)) == |s|
  {
    if s == [] {
      SumOverEmpty(keys);
    } else {
      var init := s[..|s| - 1];
      SumOverAll(keys, init);
      assert s == init + [s[|s| - 1]];
      SumOverAddOne(keys, multiset(init), s[|s| - 1]);
    }
  }

  lemma {:induction false} SumCountsOver(list: seq<FriendCount>, keys: seq<int>, m: multiset<int>)
    requires |list| == |keys|
    requires forall q | 0 <= q < |list| :: list[q].count == m[keys[q]]
    ensures SumCounts(list) == SumOver(keys, m)
  {
    if list != [] {
      SumCountsOver(list[..|list| - 1], keys[..|keys| - 1], m);
    }
  }

  /** After `prepareData`, `objectData` is the dictionary of the records, every entry's count is
      the number of times its id occurs across all friends lists (at least once), and its name
      is the name stored under that id. */
  lemma FriendsListEntries(records: seq<UserRecord>)
    requires Prepare(records).Ok?
    ensures Prepare(records).value.objectData == Index(records)
    ensures forall e | e in Prepare(records).value.friendsList ::
              && e.count == Occurrences(records, e.id)
              && e.count >= 1
              && e.id in Index(records)
              && e.name == Index(records)[e.id].name
  {
    var keys := FriendKeys(records);
    var refs := Flatten(records);
    ResolveEntries(keys, multiset(refs), Index(records));
    forall x | x in keys ensures Occurrences(records, x) == multiset(refs)[x] >= 1 {
      OccurrencesIsMultiplicity(records, x);
    }
  }

  /** `friendsList` has exactly one entry per distinct id referenced from some friends list. */
  lemma FriendsListOnePerId(records: seq<UserRecord>)
    requires Prepare(records).Ok?
    ensures forall i, j | 0 <= i < j < |Prepare(records).value.friendsList| ::
              Prepare(records).value.friendsList[i].id != Prepare(records).value.friendsList[j].id
    ensures (set e | e in Prepare(records).value.friendsList :: e.id) == ReferencedIds(records)
  {
    var keys := FriendKeys(records);
    var list := Prepare(records).value.friendsList;
    ResolveIds(keys, multiset(Flatten(records)), Index(records));
    FlattenElements(records);
    assert forall x :: x in keys <==> x in ReferencedIds(records);
    DistinctIds(list, keys);
  }

  lemma DistinctIds(list: seq<FriendCount>, keys: seq<int>)
    requires Ids(list) == keys && Distinct(keys)
    ensures forall i, j | 0 <= i < j < |list| :: list[i].id != list[j].id
    ensures forall x :: x in (set e | e in list :: e.id) <==> x in keys
  {
    assert forall i | 0 <= i < |list| :: list[i].id == keys[i];
    forall x | x in keys ensures x in set e | e in list :: e.id {
      var q :| 0 <= q < |keys| && keys[q] == x;
      assert list[q] in list;
    }
  }

  /** The counts add up to the total number of friend-id occurrences. */
  lemma FriendsListTotal(records: seq<UserRecord>)
    requires Prepare(records).Ok?
    ensures SumCounts(Prepare(records).value.friendsList) == TotalRefs(records)
  {
    var keys := FriendKeys(records);
    var refs := Flatten(records);
    var list := Prepare(records).value.friendsList;
    SumCountsOver(list, keys, multiset(refs));
    SumOverAll(keys, refs);
    FlattenLength(records);
  }

  /** `prepareData` throws exactly when some friend id is not the id of any record, and the id it
      fails on is such an id. */
  lemma PrepareFailsIff(records: seq<UserRecord>)
    ensures Prepare(records).UnknownId? <==> exists x :: x in ReferencedIds(records) && x !in RecordIds(records)
    ensures Prepare(records).UnknownId? ==>
              Prepare(records).id in ReferencedIds(records) && Prepare(records).id !in RecordIds(records)
  {
    var keys := FriendKeys(records);
    FlattenElements(records);
    if x :| x in ReferencedIds(records) && x !in RecordIds(records) {
      assert x in keys;
      var q :| 0 <= q < |keys| && keys[q] == x;
    }
  }

  /** The entries come in `Object.keys` order: array-index ids first, ascending, then the other ids
      in the order of their first reference. */
  lemma FriendsListOrder(records: seq<UserRecord>)
    requires Prepare(records).Ok?
    ensures forall i, j | 0 <= i < j < |Prepare(records).value.friendsList| &&
                          IsArrayIndex(Prepare(records).value.friendsList[j].id) ::
              && IsArrayIndex(Prepare(records).value.friendsList[i].id)
              && Prepare(records).value.friendsList[i].id < Prepare(records).value.friendsList[j].id
    ensures NonIndexKeys(Ids(Prepare(records).value.friendsList)) == NonIndexKeys(Dedup(Flatten(records)))
  {
    var keys := FriendKeys(records);
    var list := Prepare(records).value.friendsList;
    ResolveIds(keys, multiset(Flatten(records)), Index(records));
    KeyOrderCarries(list, keys);
  }

  lemma KeyOrderCarries(list: seq<FriendCount>, keys: seq<int>)
    requires Ids(list) == keys
    requires forall i, j | 0 <= i < j < |keys| && IsArrayIndex(keys[j]) :: IsArrayIndex(keys[i]) && keys[i] < keys[j]
    ensures forall i, j | 0 <= i < j < |list| && IsArrayIndex(list[j].id) :: IsArrayIndex(list[i].id) && list[i].id < list[j].id
  {
  }

  function Ids(list: seq<FriendCount>): (ids: seq<int>)
    ensures |ids| == |list| && forall i | 0 <= i < |list| :: ids[i] == list[i].id
  {
    seq(|list|, i requires 0 <= i < |list| => list[i].id)
  }
}
