/** `UserRepository`: the "users" collection, as a map from uid to user. */
module UserRepository {
  import opened Wrappers
  import opened Model

  class UserRepository {
    var users: map<string, User>

    /** A user's `uid` is its document id (`findById` sets it from the id). */
    ghost predicate Valid()
      reads this
    {
      forall uid :: uid in users ==> users[uid].uid == uid
    }

    constructor (users: map<string, User>)
      requires forall uid :: uid in users ==> users[uid].uid == uid
      ensures Valid() && this.users == users
    {
      this.users := users;
    }

    /** `findById`: the stored user, if any. */
    method FindById(uid: string) returns (r: Option<User>)
      requires Valid()
      ensures r.Some? <==> uid in users
      ensures r.Some? ==> r.value == users[uid] && r.value.uid == uid
    {
      if uid in users {
        r := Some(users[uid]);
      } else {
        r := None;
      }
    }

    /** `save`: writes the whole user under its own uid. */
    method Save(user: User)
      requires Valid()
      modifies this
      ensures Valid()
      ensures users == old(users)[user.uid := user]
    {
      users := users[user.uid := user];
    }

    /**
     * `updateRoles`: a field update, which the store rejects for a missing
     * document; otherwise only that user's role list is replaced.
     */
    method UpdateRoles(uid: string, roles: seq<string>) returns (r: Result<(), Error>)
      requires Valid()
      modifies this
      ensures Valid()
      ensures uid !in old(users) ==> r == Err(StoreFailure) && users == old(users)
      ensures uid in old(users) ==> r == Ok(()) && users == old(users)[uid := old(users)[uid].(roles := Some(roles))]
    {
      if uid !in users {
        return Err(StoreFailure);
      }
      users := users[uid := users[uid].(roles := Some(roles))];
      r := Ok(());
    }
  }
}
