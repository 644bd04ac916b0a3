/** `getListNotFriends`: draws random user ids until it holds three distinct ids that are not in
    the given friends list, and collects their names.

    `Math.round(Math.random() * (max - min)) + min` is an integer between `min` and `max`; the
    model takes the successive results of that expression as a finite sequence `draws`. When the
    loop has not yet collected three ids after the last draw, the outcome is `Pending`: the program
    would go on drawing. */
module Sampler {
  import opened JsStrings
  import opened Users
  import opened Sequences

  /** A value the draw expression can take: an integer between `min` and `max` (in either order,
      since the expression does not check that `min <= max`). */
  predicate InDrawRange(d: int, max: int, min: int)
  {
    if min <= max then min <= d <= max else max <= d <= min
  }

  /** What the loop holds when it stops: `Sampled` after its condition fails, or `Pending` when
      the draws ran out first. `names` is `listNameNotFriends`, the value the function returns, and
      `ids` is `listIdNotFriends`. */
  datatype Sampling = Sampled(ids: seq<int>, names: seq<JsString>) | Pending(ids: seq<int>, names: seq<JsString>)

  /** `array.findIndex(item => item === x)`: the first position holding `x`, or -1. */
  function FindIndex(s: seq<int>, x: int): (r: int)
    ensures r == -1 <==> x !in s
    ensures r != -1 ==> 0 <= r < |s| && s[r] == x && x !in s[..r]
  {
    if s == [] then -1
    else if s[0] == x then 0
    else
      var r := FindIndex(s[1..], x);
      if r == -1 then -1
      else
        assert s[..r + 1] == [s[0]] + s[1..][..r];
        r + 1
  }

  /** The ids and names gathered so far are a valid partial answer: distinct ids outside
      `listUsers`, each with its own name from `objectData`. */
  ghost predicate Collected(listUsers: seq<int>, objectData: map<int, UserInfo>, ids: seq<int>, names: seq<JsString>)
  {
    && |names| == |ids|
    && Distinct(ids)
    && (forall i | 0 <= i < |ids| :: ids[i] !in listUsers && ids[i] in objectData)
    && (forall i | 0 <= i < |ids| :: names[i] == objectData[ids[i]].name)
  }

  /** The loop run on `draws`, starting from the lists `ids` and `names`. */
  function Draw(listUsers: seq<int>, objectData: map<int, UserInfo>, draws: seq<int>, ids: seq<int>, names: seq<JsString>)
    : (r: Result<Sampling>)
    requires |ids| <= 3 && Collected(listUsers, objectData, ids, names)
    ensures r.Ok? ==> Collected(listUsers, objectData, r.value.ids, r.value.names)
    ensures r.Ok? ==> |ids| <= |r.value.ids| && r.value.ids[..|ids|] == ids
    ensures r.Ok? ==> forall i | |ids| <= i < |r.value.ids| :: r.value.ids[i] in draws
    ensures r.Ok? ==> (r.value.Sampled? <==> |r.value.ids| == 3)
    ensures r.UnknownId? ==> r.id in draws && r.id !in listUsers && r.id !in ids && r.id !in objectData
    decreases |draws|
  {
    if |ids| >= 3 then Ok(Sampled(ids, names))
    else if draws == [] then Ok(Pending(ids, names))
    else
      var n := draws[0];
      if n !in listUsers && n !in ids then
        if n in objectData then
          var ids' := ids + [n];
          var names' := names + [objectData[n].name];
          assert forall i | 0 <= i < |ids| :: ids'[i] == ids[i] && names'[i] == names[i];
          var r := Draw(listUsers, objectData, draws[1..], ids', names');
          if r.Ok? then PrefixOfSnoc(ids, n, r.value.ids); r else r
        else UnknownId(n)
      else Draw(listUsers, objectData, draws[1..], ids, names)
  }

  /** The whole loop, from empty lists. */
  function NotFriends(listUsers: seq<int>, objectData: map<int, UserInfo>, draws: seq<int>): Result<Sampling>
  {
    Draw(listUsers, objectData, draws, [], [])
  }

  /** `getListNotFriends(listUsers, objectData, max, min)`, reading its random numbers from `draws`.
      An id that is drawn, is not a friend and was not picked before is pushed, and its name is read
      from `objectData`; that read throws when the id is not a key. */
  method ListNotFriends(listUsers: seq<int>, objectData: map<int, UserInfo>, max: int, min: int, draws: seq<int>)
    returns (r: Result<Sampling>)
    requires forall k | 0 <= k < |draws| :: InDrawRange(draws[k], max, min)
    ensures r == NotFriends(listUsers, objectData, draws)
  {
    var listIdNotFriends: seq<int> := [];
    var listNameNotFriends: seq<JsString> := [];
    var k := 0;
    while |listIdNotFriends| < 3
      invariant 0 <= k <= |draws|
      invariant |listIdNotFriends| <= 3
      invariant Collected(listUsers, objectData, listIdNotFriends, listNameNotFriends)
      invariant Draw(listUsers, objectData, draws[k..], listIdNotFriends, listNameNotFriends)
                == NotFriends(listUsers, objectData, draws)
      decreases |draws| - k
    {
      if k == |draws| {
        return Ok(Pending(listIdNotFriends, listNameNotFriends));
      }
      var randomNumber := draws[k];
      DrawOne(listUsers, objectData, draws, k, listIdNotFriends, listNameNotFriends);
      k := k + 1;
      if FindIndex(listUsers, randomNumber) == -1 && FindIndex(listIdNotFriends, randomNumber) == -1 {
        if randomNumber !in objectData {
          return UnknownId(randomNumber);
        }
        listIdNotFriends := listIdNotFriends + [randomNumber];
        listNameNotFriends := listNameNotFriends + [objectData[randomNumber].name];
      }
    }
    return Ok(Sampled(listIdNotFriends, listNameNotFriends));
  }

  /** One turn of the loop on the draw at position `k`: an id that is a friend or already picked
      is skipped, an eligible id missing from `objectData` fails, any other is taken. */
  lemma DrawOne(listUsers: seq<int>, objectData: map<int, UserInfo>, draws: seq<int>, k: nat, ids: seq<int>, names: seq<JsString>)
    requires k < |draws| && |ids| < 3 && Collected(listUsers, objectData, ids, names)
    ensures var n := draws[k];
      && (n in listUsers || n in ids ==>
            Draw(listUsers, objectData, draws[k..], ids, names) == Draw(listUsers, objectData, draws[k + 1..], ids, names))
      && (n !in listUsers && n !in ids && n !in objectData ==>
            Draw(listUsers, objectData, draws[k..], ids, names) == UnknownId(n))
      && (n !in listUsers && n !in ids && n in objectData ==>
            && Collected(listUsers, objectData, ids + [n], names + [objectData[n].name])
            && Draw(listUsers, objectData, draws[k..], ids, names)
               == Draw(listUsers, objectData, draws[k + 1..], ids + [n], names + [objectData[n].name]))
  {
    SuffixTail(draws, k);
    var n := draws[k];
    if n !in listUsers && n !in ids && n in objectData {
      assert forall i | 0 <= i < |ids| :: (ids + [n])[i] == ids[i] && (names + [objectData[n].name])[i] == names[i];
    }
  }

  /** When the loop returns, it returns three names of three distinct users drawn from the range,
      none of them in the friends list, each the name `objectData` holds for that user. */
  lemma SampledProperties(listUsers: seq<int>, objectData: map<int, UserInfo>, max: int, min: int, draws: seq<int>)
    requires forall k | 0 <= k < |draws| :: InDrawRange(draws[k], max, min)
    requires NotFriends(listUsers, objectData, draws).Ok?
    requires NotFriends(listUsers, objectData, draws).value.Sampled?
    ensures var s := NotFriends(listUsers, objectData, draws).value;
      && |s.ids| == 3 && |s.names| == 3
      && s.ids[0] != s.ids[1] && s.ids[0] != s.ids[2] && s.ids[1] != s.ids[2]
      && forall i | 0 <= i < 3 ::
           InDrawRange(s.ids[i], max, min) && s.ids[i] !in listUsers
           && s.ids[i] in objectData && s.names[i] == objectData[s.ids[i]].name
  {
    var s := NotFriends(listUsers, objectData, draws).value;
    forall i | 0 <= i < 3 ensures InDrawRange(s.ids[i], max, min) {
      var k :| 0 <= k < |draws| && draws[k] == s.ids[i];
    }
  }

  /** The ids the draw expression can produce that are not in the friends list. */
  ghost function Eligible(listUsers: seq<int>, max: int, min: int): set<int>
  {
    var lo := if min <= max then min else max;
    var hi := if min <= max then max else min;
    set d | lo <= d <= hi && d !in listUsers
  }

  /** The loop can only return its three names when the range holds at least three ids outside
      the friends list; with fewer, it never returns, and can end only by the TypeError of an
      eligible id that is not a key of `objectData`. */
  lemma NeedsThreeEligible(listUsers: seq<int>, objectData: map<int, UserInfo>, max: int, min: int, draws: seq<int>)
    requires forall k | 0 <= k < |draws| :: InDrawRange(draws[k], max, min)
    ensures NotFriends(listUsers, objectData, draws).Ok? && NotFriends(listUsers, objectData, draws).value.Sampled?
            ==> |Eligible(listUsers, max, min)| >= 3
  {
    var r := NotFriends(listUsers, objectData, draws);
    if r.Ok? && r.value.Sampled? {
      SampledProperties(listUsers, objectData, max, min, draws);
      var ids := r.value.ids;
      var e := Eligible(listUsers, max, min);
      assert ids[0] in e && ids[1] in e && ids[2] in e;
      var e1 := e - {ids[0]};
      var e2 := e1 - {ids[1]};
      assert |e1| == |e| - 1 && |e2| == |e1| - 1 && |e2 - {ids[2]}| == |e2| - 1;
    }
  }

  /** The only id the loop can fail on is an eligible one. */
  lemma UnknownIsEligible(listUsers: seq<int>, objectData: map<int, UserInfo>, max: int, min: int, draws: seq<int>)
    requires forall k | 0 <= k < |draws| :: InDrawRange(draws[k], max, min)
    ensures NotFriends(listUsers, objectData, draws).UnknownId? ==>
              NotFriends(listUsers, objectData, draws).id in Eligible(listUsers, max, min)
              && NotFriends(listUsers, objectData, draws).id !in objectData
  {
    var r := NotFriends(listUsers, objectData, draws);
    if r.UnknownId? {
      var k :| 0 <= k < |draws| && draws[k] == r.id;
    }
  }

  /** When fewer than three ids are eligible and every one of them is a key of `objectData`, the
      loop neither returns nor throws: whatever the draws, it is still drawing when they run out. */
  lemma NeverReturns(listUsers: seq<int>, objectData: map<int, UserInfo>, max: int, min: int, draws: seq<int>)
    requires forall k | 0 <= k < |draws| :: InDrawRange(draws[k], max, min)
    requires forall d | d in Eligible(listUsers, max, min) :: d in objectData
    requires |Eligible(listUsers, max, min)| < 3
    ensures NotFriends(listUsers, objectData, draws).Ok?
    ensures NotFriends(listUsers, objectData, draws).value.Pending?
  {
    UnknownIsEligible(listUsers, objectData, max, min, draws);
    NeedsThreeEligible(listUsers, objectData, max, min, draws);
  }

  /** A draw that is eligible and a key of `objectData` is taken, with its name. */
  lemma DrawAccepts(listUsers: seq<int>, objectData: map<int, UserInfo>, n: int, rest: seq<int>, ids: seq<int>, names: seq<JsString>)
    requires |ids| < 3 && Collected(listUsers, objectData, ids, names)
    requires n !in listUsers && n !in ids && n in objectData
    ensures Collected(listUsers, objectData, ids + [n], names + [objectData[n].name])
    ensures Draw(listUsers, objectData, [n] + rest, ids, names)
            == Draw(listUsers, objectData, rest, ids + [n], names + [objectData[n].name])
  {
    assert ([n] + rest)[0] == n && ([n] + rest)[1..] == rest;
    assert forall i | 0 <= i < |ids| :: (ids + [n])[i] == ids[i] && (names + [objectData[n].name])[i] == names[i];
  }

  /** Draws that are all eligible, keys of `objectData` and new, and just enough to reach three
      ids, are all taken: the loop stops holding the ids it had followed by those draws. */
  lemma {:induction false} AcceptAll(listUsers: seq<int>, objectData: map<int, UserInfo>, ds: seq<int>, ids: seq<int>, names: seq<JsString>)
    requires |ids| + |ds| == 3 && Collected(listUsers, objectData, ids, names)
    requires Distinct(ids + ds)
    requires forall k | 0 <= k < |ds| :: ds[k] !in listUsers && ds[k] in objectData
    ensures Draw(listUsers, objectData, ds, ids, names).Ok?
    ensures Draw(listUsers, objectData, ds, ids, names).value == Sampled(ids + ds, Draw(listUsers, objectData, ds, ids, names).value.names)
  {
    if ds == [] {
      assert ids + ds == ids;
    } else {
      var n := ds[0];
      var rest := ds[1..];
      assert ds == [n] + rest;
      assert (ids + ds)[|ids|] == n;
      assert forall k | 0 <= k < |ids| :: (ids + ds)[k] == ids[k];
      DrawAccepts(listUsers, objectData, n, rest, ids, names);
      MoveHead(ids, ds);
      AcceptAll(listUsers, objectData, rest, ids + [n], names + [objectData[n].name]);
    }
  }

  /** Any three distinct eligible users that are keys of `objectData` can be the answer: three
      draws that hit them end the loop with exactly those ids (and so, by `SampledProperties`,
      their names). Only the friends list is excluded, so the id of the user whose details are
      shown can be among them. */
  lemma CanFinish(listUsers: seq<int>, objectData: map<int, UserInfo>, a: int, b: int, c: int)
    requires a != b && a != c && b != c
    requires a !in listUsers && b !in listUsers && c !in listUsers
    requires a in objectData && b in objectData && c in objectData
    ensures NotFriends(listUsers, objectData, [a, b, c]).Ok?
    ensures NotFriends(listUsers, objectData, [a, b, c]).value == Sampled([a, b, c], NotFriends(listUsers, objectData, [a, b, c]).value.names)
  {
    var ds := [a, b, c];
    assert forall k | 0 <= k < |ds| :: ds[k] !in listUsers && ds[k] in objectData;
    AcceptFromEmpty(listUsers, objectData, ds);
  }

  lemma AcceptFromEmpty(listUsers: seq<int>, objectData: map<int, UserInfo>, ds: seq<int>)
    requires |ds| == 3 && Distinct(ds)
    requires forall k | 0 <= k < |ds| :: ds[k] !in listUsers && ds[k] in objectData
    ensures NotFriends(listUsers, objectData, ds).Ok?
    ensures NotFriends(listUsers, objectData, ds).value == Sampled(ds, NotFriends(listUsers, objectData, ds).value.names)
  {
    assert [] + ds == ds;
    AcceptAll(listUsers, objectData, ds, [], []);
  }
}
