/**
 * `FirebaseJwtFilter`: once per request, reads the bearer token from the
 * `Authorization` header (section 2.1 of RFC 6750, with a case-sensitive
 * scheme prefix), verifies it, loads the caller's details and records the
 * authentication in the request's security context.
 */
module FirebaseJwtFilter {
  import opened Wrappers
  import opened Text
  import opened Model
  import opened UserRepository
  import opened UserDetailsService

  /** The scheme prefix the filter checks, trailing space included. */
  const BearerPrefix := "Bearer "

  /** The token that follows the prefix (`substring(7)`), for a header that starts with it. */
  function BearerToken(header: Option<string>): (r: Option<string>)
    ensures r.Some? <==> header.Some? && StartsWith(header.value, BearerPrefix)
    ensures r.Some? ==> header.value == BearerPrefix + r.value
  {
    if header.Some? && StartsWith(header.value, BearerPrefix) then
      assert header.value == header.value[..7] + header.value[7..];
      Some(header.value[7..])
    else None
  }

  /** Any token sent with the prefix is the token the filter verifies. */
  lemma BearerTokenRoundTrip(token: string)
    ensures BearerToken(Some(BearerPrefix + token)) == Some(token)
  {
    assert (BearerPrefix + token)[..7] == BearerPrefix;
    assert (BearerPrefix + token)[7..] == token;
  }

  /** The prefix check is case-sensitive: a lower-case scheme is treated as no token at all. */
  lemma LowerCaseSchemeIsIgnored(token: string)
    ensures BearerToken(Some("bearer " + token)) == None
  {
    assert ("bearer " + token)[0] == 'b';
  }

  /** The authentication recorded for a request: the loaded details and their authorities. */
  datatype Authentication = Authentication(principal: UserDetails, authorities: seq<Authority>)

  /** How a request leaves the filter: passed down the chain, or answered with 401. */
  datatype FilterOutcome = ChainContinued | Unauthorized

  /** The per-request security context (`SecurityContextHolder.getContext()`). */
  class SecurityContext {
    var authentication: Option<Authentication>

    constructor ()
      ensures authentication == None
    {
      authentication := None;
    }
  }

  /**
   * The filter's result for one request, given the token verifier (None
   * when verification throws; otherwise the token's uid) and the result of
   * loading that uid's details: the outcome and the authentication left in
   * the context.
   */
  function Filter(
    header: Option<string>, verifyIdToken: string -> Option<string>, load: string -> Result<UserDetails, Error>,
    previous: Option<Authentication>)
    : (r: (FilterOutcome, Option<Authentication>))
    ensures BearerToken(header).None? ==> r == (ChainContinued, previous)
    ensures r.0 == Unauthorized ==> r.1 == None
    ensures r.0 == ChainContinued && BearerToken(header).Some? ==>
      && verifyIdToken(BearerToken(header).value).Some?
      && var details := load(verifyIdToken(BearerToken(header).value).value);
         details.Ok? && r.1 == Some(Authentication(details.value, details.value.authorities))
    ensures BearerToken(header).Some? ==>
      (r.0 == Unauthorized <==>
        verifyIdToken(BearerToken(header).value).None? || load(verifyIdToken(BearerToken(header).value).value).Err?)
  {
    match BearerToken(header)
    case None => (ChainContinued, previous)
    case Some(token) =>
      match verifyIdToken(token)
      case None => (Unauthorized, None)
      case Some(uid) =>
        match load(uid)
        case Err(_) => (Unauthorized, None)
        case Ok(details) => (ChainContinued, Some(Authentication(details, details.authorities)))
  }

  /** A request that reaches the rest of the chain authenticated carries the caller's stored roles. */
  lemma AuthenticatedRequestCarriesStoredRoles(
    header: Option<string>, verifyIdToken: string -> Option<string>, users: map<string, User>,
    lookupFails: bool, profiles: string -> Option<Profile>, saveFails: bool, previous: Option<Authentication>)
    requires BearerToken(header).Some? && verifyIdToken(BearerToken(header).value).Some?
    ensures var uid := verifyIdToken(BearerToken(header).value).value;
      var o := Resolve(users, uid, lookupFails, profiles(uid), saveFails);
      var r := Filter(header, verifyIdToken, (id: string) => Resolve(users, id, lookupFails, profiles(id), saveFails).result, previous);
      r.0 == ChainContinued ==>
        && r.1.Some? && r.1.value.principal.username == uid
        && uid in o.users && RoleNames(r.1.value.authorities) == o.users[uid].roles.value
  {
  }

  /**
   * `doFilterInternal`: without a bearer header the chain continues and
   * the context is left alone; otherwise the token is verified and the
   * caller's details loaded (which may provision the caller); any failure
   * clears the context and answers 401 without continuing the chain.
   */
  method DoFilterInternal(
    header: Option<string>, verifyIdToken: string -> Option<string>, context: SecurityContext,
    users: UserRepository, lookupFails: bool, profiles: string -> Option<Profile>, saveFails: bool)
    returns (outcome: FilterOutcome)
    requires users.Valid()
    modifies context, users
    ensures users.Valid()
    ensures var load := (uid: string) => Resolve(old(users.users), uid, lookupFails, profiles(uid), saveFails).result;
      (outcome, context.authentication) == Filter(header, verifyIdToken, load, old(context.authentication))
    ensures BearerToken(header).None? || verifyIdToken(BearerToken(header).value).None? ==>
      users.users == old(users.users)
    ensures BearerToken(header).Some? && verifyIdToken(BearerToken(header).value).Some? ==>
      var uid := verifyIdToken(BearerToken(header).value).value;
      users.users == Resolve(old(users.users), uid, lookupFails, profiles(uid), saveFails).users
  {
    var token := BearerToken(header);
    if token.None? {
      return ChainContinued;
    }
    var uid := verifyIdToken(token.value);
    if uid.None? {
      context.authentication := None;
      return Unauthorized;
    }
    var details := LoadUserByUsername(users, uid.value, lookupFails, profiles, saveFails);
    if details.Err? {
      context.authentication := None;
      return Unauthorized;
    }
    context.authentication := Some(Authentication(details.value, details.value.authorities));
    outcome := ChainContinued;
  }
}
