/** The shapes of data flowing through the user-directory pipeline. */
module Users {
  import opened JsStrings

  /** One fetched user record: `{id, name, friends}`. */
  datatype UserRecord = UserRecord(id: int, name: JsString, friends: seq<int>)

  /** The value stored under an id in `objectData`: `{name, friends}`. */
  datatype UserInfo = UserInfo(name: JsString, friends: seq<int>)

  /** One entry of `friendsList`: how often `id` is referenced, and its display name. */
  datatype FriendCount = FriendCount(id: int, count: nat, name: JsString)

  /** Reading `objectData[id].name` for an id that is not a key throws a TypeError;
      `UnknownId(id)` is that failure, naming the id whose lookup failed. */
  datatype Result<T> = Ok(value: T) | UnknownId(id: int)

  function Info(r: UserRecord): UserInfo
  {
    UserInfo(r.name, r.friends)
  }

  ghost predicate Distinct(s: seq<int>)
  {
    forall i, j | 0 <= i < j < |s| :: s[i] != s[j]
  }
}
