/** `getListNames`: the names of a list of user ids. */
module Lookup {
  import opened JsStrings
  import opened Users
  import Indexer

  /** `listName.map(item => objectData[item].name)`: the names in the order of the ids. The
      first id that is not a key makes the lookup throw, and that is where the mapping stops. */
  function ListNames(listName: seq<int>, objectData: map<int, UserInfo>): (r: Result<seq<JsString>>)
    ensures r.Ok? <==> forall i | 0 <= i < |listName| :: listName[i] in objectData
    ensures r.Ok? ==> |r.value| == |listName|
    ensures r.Ok? ==> forall i | 0 <= i < |listName| :: r.value[i] == objectData[listName[i]].name
    ensures r.UnknownId? ==> exists i | 0 <= i < |listName| ::
              listName[i] == r.id && r.id !in objectData
              && forall q | 0 <= q < i :: listName[q] in objectData
  {
    if listName == [] then Ok([])
    else if listName[0] !in objectData then UnknownId(listName[0])
    else
      var tail := listName[1..];
      assert forall i | 1 <= i < |listName| :: listName[i] == tail[i - 1];
      match ListNames(tail, objectData)
      case Ok(names) => Ok([objectData[listName[0]].name] + names)
      case UnknownId(id) =>
        var k :| 0 <= k < |tail| && tail[k] == id && id !in objectData
                 && forall q | 0 <= q < k :: tail[q] in objectData;
        assert listName[k + 1] == id;
        UnknownId(id)
  }

  /** Once `prepareData` has succeeded, the friends list of every user in `objectData` can be
      turned into names: each friend id is the id of some record. */
  lemma StoredFriendsResolve(records: seq<UserRecord>)
    requires Indexer.Prepare(records).Ok?
    ensures var objectData := Indexer.Prepare(records).value.objectData;
      forall k | k in objectData :: ListNames(objectData[k].friends, objectData).Ok?
  {
    Indexer.PrepareFailsIff(records);
    var objectData := Indexer.Index(records);
    assert Indexer.Prepare(records).value.objectData == objectData;
    assert forall x | x in Indexer.ReferencedIds(records) :: x in objectData;
    forall k | k in objectData ensures ListNames(objectData[k].friends, objectData).Ok? {
      Indexer.IndexKeyHasLastRecord(records, k);
      var i :| 0 <= i < |records| && records[i].id == k && Indexer.LastWithId(records, i);
      var friends := records[i].friends;
      assert objectData[k].friends == friends;
      forall j | 0 <= j < |friends| ensures friends[j] in objectData {
        Indexer.ReferencedIdsHas(records, i, j);
      }
    }
  }
}
