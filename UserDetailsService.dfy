/**
 * `UserDetailsServiceImpl`: resolves a verified uid to the caller's
 * authorities, provisioning a student account on first sight.
 */
module UserDetailsService {
  import opened Wrappers
  import opened Model
  import opened UserRepository

  /** What the identity provider holds for a uid (`UserRecord`). */
  datatype Profile = Profile(email: Option<string>, displayName: Option<string>)

  /** A granted authority: one role name (`SimpleGrantedAuthority`). */
  datatype Authority = Authority(role: string)

  /** Spring's user details: principal name and authorities (the password is always empty). */
  datatype UserDetails = UserDetails(username: string, authorities: seq<Authority>)

  /** One authority per role, in role order. */
  function Authorities(roles: seq<string>): (r: seq<Authority>)
    ensures |r| == |roles|
    ensures forall i :: 0 <= i < |roles| ==> r[i] == Authority(roles[i])
  {
    seq(|roles|, i requires 0 <= i < |roles| => Authority(roles[i]))
  }

  /** The role names behind a list of authorities (`getAuthority`). */
  function RoleNames(authorities: seq<Authority>): (r: seq<string>)
    ensures |r| == |authorities|
    ensures forall i :: 0 <= i < |authorities| ==> r[i] == authorities[i].role
  {
    seq(|authorities|, i requires 0 <= i < |authorities| => authorities[i].role)
  }

  /** Authorities carry the roles one-for-one and in order: reading them back gives the roles. */
  lemma AuthoritiesRoundTrip(roles: seq<string>)
    ensures RoleNames(Authorities(roles)) == roles
  {
  }

  /**
   * The details returned for a stored user: its uid as principal name and
   * its roles as authorities; a null role list is dereferenced.
   */
  function ToUserDetails(u: User): (r: Result<UserDetails, Error>)
    ensures r.Ok? <==> u.roles.Some?
    ensures r.Err? ==> r.error == NullReference
    ensures r.Ok? ==> r.value.username == u.uid && RoleNames(r.value.authorities) == u.roles.value
  {
    if u.roles.None? then Err(NullReference)
    else
      AuthoritiesRoundTrip(u.roles.value);
      Ok(UserDetails(u.uid, Authorities(u.roles.value)))
  }

  /** The account `createNewStudentUser` builds: the profile's email and name, and only the student role. */
  function NewStudentUser(uid: string, profile: Profile): User {
    User(uid, profile.email, profile.displayName, Some([RoleStudent]))
  }

  /** A resolved request: what `loadUserByUsername` returns, and the user store afterwards. */
  datatype Outcome = Outcome(result: Result<UserDetails, Error>, users: map<string, User>)

  /**
   * `loadUserByUsername`, given whether the store lookup fails, the
   * identity provider's profile for the uid (None when that call fails) and
   * whether the save fails. Every failure surfaces as UsernameNotFound and
   * leaves the store as it was.
   */
  function Resolve(users: map<string, User>, uid: string, lookupFails: bool, profile: Option<Profile>, saveFails: bool)
    : (o: Outcome)
    ensures o.result.Err? ==> o.result.error == UsernameNotFound && o.users == users
    ensures lookupFails ==> o.result.Err?
    ensures !lookupFails && uid in users ==> o.users == users
    ensures !lookupFails && uid in users ==>
      o.result == (if users[uid].roles.Some? then Ok(UserDetails(uid, Authorities(users[uid].roles.value)))
                   else Err(UsernameNotFound))
    ensures !lookupFails && uid !in users ==> (o.result.Ok? <==> profile.Some? && !saveFails)
    ensures o.result.Ok? ==>
      && uid in o.users && o.users[uid].roles.Some?
      && o.result.value.username == uid && RoleNames(o.result.value.authorities) == o.users[uid].roles.value
    ensures o.result.Ok? && uid !in users ==>
      && o.users == users[uid := o.users[uid]]
      && o.users[uid] == User(uid, profile.value.email, profile.value.displayName, Some([RoleStudent]))
  {
    if lookupFails then Outcome(Err(UsernameNotFound), users)
    else if uid in users then
      // `findById` fills the uid from the document id.
      match ToUserDetails(users[uid].(uid := uid))
      case Err(_) => Outcome(Err(UsernameNotFound), users)
      case Ok(details) => Outcome(Ok(details), users)
    else if profile.None? || saveFails then Outcome(Err(UsernameNotFound), users)
    else
      var user := NewStudentUser(uid, profile.value);
      Outcome(ToUserDetails(user), users[uid := user])
  }

  /** A freshly provisioned user holds exactly the student authority. */
  lemma ProvisionedUserIsStudent(users: map<string, User>, uid: string, profile: Profile)
    requires uid !in users
    ensures Resolve(users, uid, false, Some(profile), false).result == Ok(UserDetails(uid, [Authority(RoleStudent)]))
  {
    assert Authorities([RoleStudent]) == [Authority(RoleStudent)];
  }

  /**
   * Loading again after a successful load finds the stored user: the same
   * details, no further write, whatever the identity provider would answer.
   */
  lemma SecondLoadIsStable(
    users: map<string, User>, uid: string, profile: Option<Profile>, saveFails: bool,
    laterProfile: Option<Profile>, laterSaveFails: bool)
    requires Resolve(users, uid, false, profile, saveFails).result.Ok?
    ensures var first := Resolve(users, uid, false, profile, saveFails);
      Resolve(first.users, uid, false, laterProfile, laterSaveFails) == first
  {
  }

  /**
   * `createNewStudentUser`: fetches the profile, builds the student
   * account and saves it; a failure of either call is reported as one
   * provisioning failure, with nothing written.
   */
  method CreateNewStudentUser(users: UserRepository, uid: string, profile: Option<Profile>, saveFails: bool)
    returns (r: Result<User, Error>)
    requires users.Valid()
    modifies users
    ensures users.Valid()
    ensures profile.None? || saveFails ==> r == Err(ProvisioningFailure) && users.users == old(users.users)
    ensures profile.Some? && !saveFails ==>
      var user := NewStudentUser(uid, profile.value);
      r == Ok(user) && users.users == old(users.users)[uid := user]
  {
    if profile.None? || saveFails {
      return Err(ProvisioningFailure);
    }
    var user := NewStudentUser(uid, profile.value);
    users.Save(user);
    r := Ok(user);
  }

  /**
   * `loadUserByUsername`: finds the user or provisions one, then converts
   * its roles to authorities; any failure on the way becomes
   * UsernameNotFound.
   */
  method LoadUserByUsername(
    users: UserRepository, uid: string, lookupFails: bool, profiles: string -> Option<Profile>, saveFails: bool)
    returns (r: Result<UserDetails, Error>)
    requires users.Valid()
    modifies users
    ensures users.Valid()
    ensures Outcome(r, users.users) == Resolve(old(users.users), uid, lookupFails, profiles(uid), saveFails)
  {
    if lookupFails {
      return Err(UsernameNotFound);
    }
    var found := users.FindById(uid);
    var user: User;
    if found.Some? {
      user := found.value;
    } else {
      var created := CreateNewStudentUser(users, uid, profiles(uid), saveFails);
      if created.Err? {
        return Err(UsernameNotFound);
      }
      user := created.value;
    }
    var details := ToUserDetails(user);
    if details.Err? {
      return Err(UsernameNotFound);
    }
    r := details;
  }
}
