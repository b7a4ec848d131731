/**
 * `WebSecurityConfig.securityFilterChain`: the ordered URL rules, first
 * match wins, with every unmatched request requiring authentication; and
 * the per-endpoint authority each controller method demands through
 * `@PreAuthorize`. A request path is its list of '/'-separated segments.
 */
module WebSecurityConfig {
  import opened Wrappers
  import opened Model

  datatype HttpMethod = GET | POST | PUT | DELETE | PATCH | HEAD | OPTIONS

  type Path = seq<string>

  /** A request matcher's path: exactly these segments, or these followed by any further segments (a trailing double-star). */
  datatype PathPattern = Exact(segments: Path) | Prefix(segments: Path)

  datatype Access = PermitAll | Authenticated

  /** A matcher with an optional verb restriction, and the access it grants. */
  datatype Rule = Rule(verb: Option<HttpMethod>, pattern: PathPattern, access: Access)

  /** "/api/v1/courses" */
  const CoursesPath: Path := ["api", "v1", "courses"]
  /** "/api/v1/courses/health" */
  const HealthPath: Path := CoursesPath + ["health"]

  /** The permit rules, in declaration order; `anyRequest().authenticated()` follows them. */
  const Rules: seq<Rule> := [
    Rule(None, Exact(HealthPath), PermitAll),
    Rule(Some(GET), Exact(CoursesPath), PermitAll),
    Rule(Some(GET), Prefix(CoursesPath), PermitAll)
  ]

  predicate IsPrefix(prefix: Path, path: Path) {
    |prefix| <= |path| && path[..|prefix|] == prefix
  }

  predicate PatternMatches(pattern: PathPattern, path: Path) {
    match pattern
    case Exact(segments) => path == segments
    case Prefix(segments) => IsPrefix(segments, path)
  }

  predicate RuleMatches(rule: Rule, verb: HttpMethod, path: Path) {
    (rule.verb.None? || rule.verb.value == verb) && PatternMatches(rule.pattern, path)
  }

  /** The access of the first matching rule; the catch-all when none matches. */
  function Evaluate(rules: seq<Rule>, verb: HttpMethod, path: Path): (a: Access)
    ensures (forall i :: 0 <= i < |rules| ==> !RuleMatches(rules[i], verb, path)) ==> a == Authenticated
    ensures a == PermitAll ==> exists i :: 0 <= i < |rules| && RuleMatches(rules[i], verb, path) && rules[i].access == PermitAll
  {
    if |rules| == 0 then Authenticated
    else if RuleMatches(rules[0], verb, path) then rules[0].access
    else
      var a := Evaluate(rules[1..], verb, path);
      assert forall i :: 1 <= i < |rules| ==> rules[1..][i - 1] == rules[i];
      a
  }

  /** Rules apply in order: the first matching rule decides, whatever follows it. */
  lemma {:induction false} FirstMatchWins(rules: seq<Rule>, verb: HttpMethod, path: Path, i: nat)
    requires i < |rules| && RuleMatches(rules[i], verb, path)
    requires forall j :: 0 <= j < i ==> !RuleMatches(rules[j], verb, path)
    ensures Evaluate(rules, verb, path) == rules[i].access
  {
    if i > 0 {
      assert forall j :: 0 <= j < i - 1 ==> rules[1..][j] == rules[j + 1];
      FirstMatchWins(rules[1..], verb, path, i - 1);
    }
  }

  /** Whether the URL rules let the request through to the dispatcher. */
  function Allowed(verb: HttpMethod, path: Path, authenticated: bool): (r: bool)
    ensures authenticated ==> r
    ensures !authenticated ==> (r <==> path == HealthPath || (verb == GET && IsPrefix(CoursesPath, path)))
  {
    var access := Evaluate(Rules, verb, path);
    assert access == PermitAll <==> path == HealthPath || (verb == GET && IsPrefix(CoursesPath, path)) by {
      if path == HealthPath {
        FirstMatchWins(Rules, verb, path, 0);
      } else if verb == GET && path == CoursesPath {
        FirstMatchWins(Rules, verb, path, 1);
      } else if verb == GET && IsPrefix(CoursesPath, path) {
        FirstMatchWins(Rules, verb, path, 2);
      }
    }
    authenticated || access == PermitAll
  }

  /** Any verb on the health check is public. */
  lemma HealthIsPublic(verb: HttpMethod)
    ensures Allowed(verb, HealthPath, false)
  {
  }

  /** Browsing and reading courses is public. */
  lemma CourseReadsArePublic(rest: Path)
    ensures Allowed(GET, CoursesPath, false)
    ensures Allowed(GET, CoursesPath + rest, false)
  {
    assert (CoursesPath + rest)[..|CoursesPath|] == CoursesPath;
  }

  /** Every other verb on the courses tree, bar the health check, needs a signed-in caller. */
  lemma CourseWritesNeedAuthentication(verb: HttpMethod, rest: Path)
    requires verb != GET && CoursesPath + rest != HealthPath
    ensures !Allowed(verb, CoursesPath + rest, false)
  {
  }

  // ---------------------------------------------------------------------
  // Per-endpoint authorities (`@PreAuthorize("hasAuthority(...)")`)

  /** A mapping's path segment: fixed text, or a path variable matching any one segment. */
  datatype Segment = Lit(text: string) | Var

  /** A controller method: HTTP verb, path template, and the authority it demands. */
  datatype Endpoint = Endpoint(verb: HttpMethod, template: seq<Segment>, authority: string)

  predicate TemplateMatches(template: seq<Segment>, path: Path) {
    |template| == |path| && forall i :: 0 <= i < |path| ==> (template[i].Lit? ==> template[i].text == path[i])
  }

  function Under(base: seq<string>, rest: seq<Segment>): seq<Segment> {
    seq(|base|, i requires 0 <= i < |base| => Lit(base[i])) + rest
  }

  /** The controller methods that carry an authority check, controller by controller. */
  const Endpoints: seq<Endpoint> := [
    // AdminController: the class-level check covers every mapping.
    Endpoint(GET, Under(["api", "v1", "admin"], [Lit("health")]), RoleAdmin),
    Endpoint(GET, Under(["api", "v1", "admin"], [Lit("users")]), RoleAdmin),
    Endpoint(PUT, Under(["api", "v1", "admin"], [Lit("users"), Var, Lit("roles")]), RoleAdmin),
    Endpoint(DELETE, Under(["api", "v1", "admin"], [Lit("courses"), Var]), RoleAdmin),
    Endpoint(DELETE, Under(["api", "v1", "admin"], [Lit("courses"), Var, Lit("modules"), Var]), RoleAdmin),
    Endpoint(DELETE, Under(["api", "v1", "admin"],
      [Lit("courses"), Var, Lit("modules"), Var, Lit("lessons"), Var]), RoleAdmin),
    // StudentController
    Endpoint(POST, Under(["api", "v1", "student"], [Lit("enroll"), Var]), RoleStudent),
    Endpoint(GET, Under(["api", "v1", "student"], [Lit("my-courses")]), RoleStudent),
    Endpoint(GET, Under(["api", "v1", "student"],
      [Lit("courses"), Var, Lit("modules"), Var, Lit("lessons"), Var, Lit("content")]), RoleStudent),
    // InstructorController
    Endpoint(POST, Under(["api", "v1", "instructor"], [Lit("courses")]), RoleInstructor),
    Endpoint(GET, Under(["api", "v1", "instructor"], [Lit("my-courses")]), RoleInstructor),
    // UploadController
    Endpoint(POST, Under(["api", "v1", "uploads"], [Lit("presign-url")]), RoleInstructor),
    // CourseController
    Endpoint(GET, Under(["api", "v1", "courses"], [Lit("instructor-only")]), RoleInstructor)
  ]

  /** The authority the handling controller method demands, if it demands one. */
  function RequiredAuthority(verb: HttpMethod, path: Path): (r: Option<string>)
    ensures r.Some? <==>
      exists i :: 0 <= i < |Endpoints| && Endpoints[i].verb == verb && TemplateMatches(Endpoints[i].template, path)
    ensures r.Some? ==>
      exists i :: 0 <= i < |Endpoints| && Endpoints[i].verb == verb && TemplateMatches(Endpoints[i].template, path)
        && r.value == Endpoints[i].authority
  {
    match FirstEndpoint(Endpoints, verb, path)
    case None => None
    case Some(i) => Some(Endpoints[i].authority)
  }

  function FirstEndpoint(endpoints: seq<Endpoint>, verb: HttpMethod, path: Path): (r: Option<nat>)
    ensures r.Some? ==>
      r.value < |endpoints| && endpoints[r.value].verb == verb && TemplateMatches(endpoints[r.value].template, path)
    ensures r.None? ==> forall i :: 0 <= i < |endpoints| ==>
      !(endpoints[i].verb == verb && TemplateMatches(endpoints[i].template, path))
  {
    if |endpoints| == 0 then None
    else if endpoints[0].verb == verb && TemplateMatches(endpoints[0].template, path) then Some(0)
    else
      match FirstEndpoint(endpoints[1..], verb, path)
      case None => None
      case Some(i) => Some(i + 1)
  }

  /** What happens to a request: dispatched, or stopped for want of a login or of an authority. */
  datatype Decision = Permit | RejectUnauthenticated | RejectForbidden

  /**
   * The URL rules first, then the handler's authority check. `authorities`
   * is None for an anonymous caller; an anonymous caller stopped by an
   * authority check is asked to log in.
   */
  function Authorize(verb: HttpMethod, path: Path, authorities: Option<seq<string>>): (d: Decision)
    ensures d == Permit <==>
      && Allowed(verb, path, authorities.Some?)
      && (RequiredAuthority(verb, path).Some? ==>
            authorities.Some? && RequiredAuthority(verb, path).value in authorities.value)
    ensures d == RejectForbidden ==> authorities.Some?
  {
    if !Allowed(verb, path, authorities.Some?) then RejectUnauthenticated
    else
      var required := RequiredAuthority(verb, path);
      if required.None? then Permit
      else if authorities.None? then RejectUnauthenticated
      else if required.value in authorities.value then Permit
      else RejectForbidden
  }

  /** An anonymous request gets through only on the public routes. */
  lemma AnonymousPermitMeansPublicRoute(verb: HttpMethod, path: Path)
    requires Authorize(verb, path, None) == Permit
    ensures path == HealthPath || (verb == GET && IsPrefix(CoursesPath, path))
  {
  }

  /**
   * "/api/v1/courses/instructor-only" is under the public GET rule, yet its
   * handler demands the instructor authority: anonymous callers and
   * students are stopped there.
   */
  lemma InstructorOnlyIsNotPublic(roles: seq<string>)
    requires RoleInstructor !in roles
    ensures Allowed(GET, CoursesPath + ["instructor-only"], false)
    ensures Authorize(GET, CoursesPath + ["instructor-only"], None) == RejectUnauthenticated
    ensures Authorize(GET, CoursesPath + ["instructor-only"], Some(roles)) == RejectForbidden
  {
    var path := CoursesPath + ["instructor-only"];
    assert TemplateMatches(Endpoints[12].template, path);
    assert path[..|CoursesPath|] == CoursesPath;
  }

  /** Only an administrator reaches an admin endpoint. */
  lemma AdminEndpointsNeedAdmin(courseId: string, roles: seq<string>)
    ensures Authorize(DELETE, ["api", "v1", "admin", "courses", courseId], Some(roles)) == Permit
      <==> RoleAdmin in roles
  {
    var path := ["api", "v1", "admin", "courses", courseId];
    assert TemplateMatches(Endpoints[3].template, path);
  }

  /** Both instructor endpoints demand the instructor authority of a signed-in caller. */
  lemma InstructorEndpointsNeedInstructor(roles: seq<string>)
    ensures RequiredAuthority(POST, ["api", "v1", "instructor", "courses"]) == Some(RoleInstructor)
    ensures RequiredAuthority(GET, ["api", "v1", "instructor", "my-courses"]) == Some(RoleInstructor)
    ensures Authorize(POST, ["api", "v1", "instructor", "courses"], Some(roles)) == Permit <==> RoleInstructor in roles
    ensures Authorize(GET, ["api", "v1", "instructor", "my-courses"], Some(roles)) == Permit <==> RoleInstructor in roles
  {
    var create := ["api", "v1", "instructor", "courses"];
    var mine := ["api", "v1", "instructor", "my-courses"];
    assert TemplateMatches(Endpoints[9].template, create);
    assert RequiredAuthority(POST, create) == Some(RoleInstructor);
    assert TemplateMatches(Endpoints[10].template, mine);
    forall i | i in {0, 1, 7} ensures !TemplateMatches(Endpoints[i].template, mine) {
      assert Endpoints[i].template[2] != Lit("instructor");
    }
    assert RequiredAuthority(GET, mine) == Some(RoleInstructor);
  }

  /** Only an instructor may ask for an upload link. */
  lemma UploadLinkNeedsInstructor(roles: seq<string>)
    ensures RequiredAuthority(POST, ["api", "v1", "uploads", "presign-url"]) == Some(RoleInstructor)
    ensures Authorize(POST, ["api", "v1", "uploads", "presign-url"], Some(roles)) == Permit <==> RoleInstructor in roles
    ensures Authorize(POST, ["api", "v1", "uploads", "presign-url"], None) == RejectUnauthenticated
  {
    assert TemplateMatches(Endpoints[11].template, ["api", "v1", "uploads", "presign-url"]);
  }
}
