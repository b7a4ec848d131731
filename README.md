# CourseVerse backend core in Dafny

This project models the service layer of the CourseVerse course platform backend and proves properties about it. That layer covers:

- courses made of modules and lessons, kept in a document store;
- students enrolling in courses and reading lesson content through short-lived signed links;
- instructors creating courses;
- administrators changing user roles and deleting courses, modules and lessons, together with their stored media;
- the request gate: it reads a Firebase ID token from the `Authorization` header, loads the user (creating a student account on first sight), and applies the route and role policy.

Here is how the pieces map onto Dafny:

- **Records.** Courses, modules, lessons, users and enrollments are datatypes (`Model`). A Java `null` is `Option.None`.
- **Errors.** An exception becomes an `Err` of the `Error` datatype.
- **Document stores.** These are classes over maps whose methods reassign the map (`CourseRepository`, `EnrollmentRepository`, `UserRepository`). Each store keeps the invariant that a document's `uid` is its id.
- **Object store.** This is a class holding the set of keys, the log of delete requests it received, and the keys whose deletion it rejects (`S3Service.ObjectStore`).
- **Presigner.** It is a datatype of two oracles (`S3Service.Presigner`). `None` from an oracle stands for the SDK's exception.
- **Token verification, profile lookup and store failures.** Token verification and the Firebase profile lookup are function parameters. A store failure is a boolean parameter, used wherever the source reacts to one differently from success.
- **Java integers.** `enrollmentCount` is an `int`: it is the `int32` newtype, and its increment wraps as Java's does.

Modules:

- **`Text`**: `isBlank`, `indexOf`, `contains` and `startsWith` over strings.
- **`Seqs`**: first-match search, filtering and flat-mapping.
- **`S3Service`**: upload keys, signed links and best-effort deletion.
- **`LinkRefresh`**: the thumbnail link refresh that four service methods repeat. It is written once, and each call site is specified through it.
- **`CourseRepository`, `EnrollmentRepository`, `UserRepository`**: the document stores.
- **`CourseService`, `EnrollmentService`, `AdminService`**: the services.
- **`UserDetailsService`, `FirebaseJwtFilter`**: user loading and the per-request authentication filter.
- **`WebSecurityConfig`**: the ordered permit table and the role table taken from the controllers' `@PreAuthorize` annotations.
- **`KeyRecovery`**: compares the two URL-to-key extractors on the virtual-hosted link shape both are written for.

## Model

Source paths are relative to the repository root.

| member | source | states |
|---|---|---|
| Model.Int32Increment | backend/src/main/java/com/courseverse/backend/service/EnrollmentService.java:51 | `enrollmentCount + 1` on a Java `int`: one more below the maximum, wraps to the minimum at it, and is always congruent to the sum modulo 2^32 |
| S3Service.UploadObjectKey | backend/src/main/java/com/courseverse/backend/service/S3Service.java:37-38 | the upload key starts with "lessons/", holds the unique id right after it, then one '/', then the file name (a null file name reads "null") |
| S3Service.ParseUploadKey | backend/src/main/java/com/courseverse/backend/service/S3Service.java:37-38 | splitting a key at the first '/' after "lessons/" gives a segment without '/' and a rest that rebuild the key exactly |
| S3Service.UploadKeyRoundTrip | backend/src/main/java/com/courseverse/backend/service/S3Service.java:37-38 | for a UUID-shaped id, parsing the upload key gives back exactly that id and that file name |
| S3Service.GeneratePresignedUploadUrl | backend/src/main/java/com/courseverse/backend/service/S3Service.java:34-59 | asks for a 15-minute upload signature on the new key in the configured bucket; the response carries the signed URL and that same key; a presigner failure propagates as an error |
| S3Service.GeneratePresignedReadUrl | backend/src/main/java/com/courseverse/backend/service/S3Service.java:61-88 | null for a null or blank key; otherwise the presigner's one-hour read link for that key, or null when presigning fails |
| S3Service.BlankKeyReadUrlIndependentOfPresigner | backend/src/main/java/com/courseverse/backend/service/S3Service.java:62-64 | for a blank key every presigner gives the same null link, so the presigner is never consulted |
| S3Service.UploadKeysAreDistinct | backend/src/main/java/com/courseverse/backend/service/S3Service.java:37-38 | two UUID-shaped ids that differ give different upload keys, whatever the two file names, so two uploads never share an object |
| S3Service.DeleteRequestsFor | backend/src/main/java/com/courseverse/backend/service/S3Service.java:90-101 | a null or blank key sends no delete request (iff); any other key sends exactly one, for that key |
| S3Service.Deleted | backend/src/main/java/com/courseverse/backend/service/S3Service.java:95-107 | reference definition (its ensures is the definition itself): a key is removed exactly when it was requested and the store did not reject it; `ObjectStore.Valid` is stated with it |
| S3Service.DeletedAppend | backend/src/main/java/com/courseverse/backend/service/S3Service.java:90-108 | two runs of delete requests remove the union of what each removes |
| S3Service.DeleteTwiceIsDeleteOnce | backend/src/main/java/com/courseverse/backend/service/S3Service.java:90-108 | deleting the same key twice leaves the store as deleting it once |
| S3Service.ObjectStore.constructor | backend/src/main/java/com/courseverse/backend/service/S3Service.java:26-32 | a store with the given keys and no delete requests yet, satisfying its invariant |
| S3Service.ObjectStore.DeleteObject | backend/src/main/java/com/courseverse/backend/service/S3Service.java:90-108 | appends the key's delete requests to the log and removes the key unless the store rejects it; never fails; keeps the invariant "initial keys minus every removed key" |
| S3Service.ObjectStore.RemovedByRequests | backend/src/main/java/com/courseverse/backend/service/S3Service.java:90-108 | under the invariant, the keys held after a run of requests are the keys before it minus what the run removed |
| LinkRefresh.RefreshThumbnail | backend/src/main/java/com/courseverse/backend/service/CourseService.java:46-58 | only the two thumbnail fields change; a non-blank key is kept and gets a fresh read link; a legacy URL that yields a key gets a link for that key and stores the key; otherwise the course is unchanged |
| LinkRefresh.RefreshedLinkFollowsKey | backend/src/main/java/com/courseverse/backend/service/CourseService.java:46-58 | after a refresh, a non-blank key always carries the read link of that key |
| LinkRefresh.RefreshIdempotent | backend/src/main/java/com/courseverse/backend/service/CourseService.java:46-58 | refreshing twice gives the same course as refreshing once |
| LinkRefresh.RefreshAll | backend/src/main/java/com/courseverse/backend/service/CourseService.java:43-59 | the in-place pass keeps the list's length and order and refreshes every course |
| CourseRepository.WithoutModule | backend/src/main/java/com/courseverse/backend/repository/CourseRepository.java:91-93 | no module with the id remains; every other module is kept |
| CourseRepository.WithoutModuleKeepsOrder | backend/src/main/java/com/courseverse/backend/repository/CourseRepository.java:91-93 | dropping modules distributes over concatenation, so the remaining modules keep their order |
| CourseRepository.WithoutLesson | backend/src/main/java/com/courseverse/backend/repository/CourseRepository.java:111-113 | no lesson with the id remains; every other lesson is kept |
| CourseRepository.WithoutLessonKeepsOrder | backend/src/main/java/com/courseverse/backend/repository/CourseRepository.java:111-113 | dropping lessons distributes over concatenation, so the remaining lessons keep their order |
| CourseRepository.LessonRemoved | backend/src/main/java/com/courseverse/backend/repository/CourseRepository.java:109-116 | only the first module with the id and a lesson list is edited, and in it the lessons with the id are dropped; every module keeps its id and title; with no such module nothing changes |
| CourseRepository.Where | backend/src/main/java/com/courseverse/backend/repository/CourseRepository.java:68-75 | reference definition (its ensures is the definition itself): a query selects exactly the documents satisfying the condition, as stored; `FindWhere` is proved against it |
| CourseRepository.CourseRepository.constructor | backend/src/main/java/com/courseverse/backend/repository/CourseRepository.java:24-26 | a collection whose documents carry their own id as `uid` |
| CourseRepository.CourseRepository.FindWhere | backend/src/main/java/com/courseverse/backend/repository/CourseRepository.java:68-75 | lists every selected document exactly once, as stored, in an order the store chooses |
| CourseRepository.CourseRepository.FindAll | backend/src/main/java/com/courseverse/backend/repository/CourseRepository.java:28-35 | lists every document exactly once, as stored |
| CourseRepository.CourseRepository.FindByInstructorId | backend/src/main/java/com/courseverse/backend/repository/CourseRepository.java:68-75 | lists exactly the courses whose `instructorId` equals the uid, each once |
| CourseRepository.CourseRepository.FindById | backend/src/main/java/com/courseverse/backend/repository/CourseRepository.java:37-47 | present iff the id is stored; then the stored course, whose `uid` is the id |
| CourseRepository.CourseRepository.Save | backend/src/main/java/com/courseverse/backend/repository/CourseRepository.java:49-60 | sets `uid` to the fresh document id, writes the course under it and returns that same course; nothing else changes |
| CourseRepository.CourseRepository.Update | backend/src/main/java/com/courseverse/backend/repository/CourseRepository.java:62-66 | overwrites only the document keyed by the course's `uid` |
| CourseRepository.CourseRepository.DeleteById | backend/src/main/java/com/courseverse/backend/repository/CourseRepository.java:77-80 | removes only that key |
| CourseRepository.CourseRepository.DeleteModule | backend/src/main/java/com/courseverse/backend/repository/CourseRepository.java:82-97 | for a stored course with a module list, writes it back with the modules of that id dropped; otherwise writes nothing |
| CourseRepository.CourseRepository.DeleteLesson | backend/src/main/java/com/courseverse/backend/repository/CourseRepository.java:99-120 | for a stored course with a module list, the loop with `break` writes back exactly `LessonRemoved`, unchanged when no module matched; otherwise writes nothing |
| EnrollmentRepository.EnrolledCourseIds | backend/src/main/java/com/courseverse/backend/service/EnrollmentService.java:65-70 | a course id is listed exactly when the user has an enrollment in it |
| EnrollmentRepository.EnrollmentRepository.constructor | backend/src/main/java/com/courseverse/backend/repository/EnrollmentRepository.java:23-25 | a collection whose documents carry their own id as `uid` |
| EnrollmentRepository.EnrollmentRepository.FindByUserIdAndCourseId | backend/src/main/java/com/courseverse/backend/repository/EnrollmentRepository.java:35-50 | present iff an enrollment with that user and course is stored; then one such stored enrollment |
| EnrollmentRepository.EnrollmentRepository.FindCourseIdsByUserId | backend/src/main/java/com/courseverse/backend/repository/EnrollmentRepository.java:53-60 | the course ids of the user's stored enrollments |
| EnrollmentRepository.EnrollmentRepository.Save | backend/src/main/java/com/courseverse/backend/repository/EnrollmentRepository.java:27-32 | sets `uid` to the fresh id and adds the enrollment under it; nothing else changes |
| EnrollmentService.EnrollStudent | backend/src/main/java/com/courseverse/backend/service/EnrollmentService.java:31-59 | a missing course gives NotFound and an existing enrollment gives AlreadyEnrolled, both with no write; otherwise a new enrollment with the caller, the course and zero progress is saved, and the course's count is incremented and written back |
| EnrollmentService.EnrollmentListsCourse | backend/src/main/java/com/courseverse/backend/service/EnrollmentService.java:40-48 | the saved enrollment makes the user enrolled in the course, adds exactly that course to the user's enrolled course ids and changes no other user's; so a repeated `EnrollStudent` for the same pair gives AlreadyEnrolled |
| EnrollmentService.CoursesIn | backend/src/main/java/com/courseverse/backend/service/EnrollmentService.java:80-82 | keeps exactly the listed courses whose `uid` is among the ids |
| EnrollmentService.GetMyEnrolledCourses | backend/src/main/java/com/courseverse/backend/service/EnrollmentService.java:61-106 | empty when the user has no enrollments; otherwise exactly the stored enrolled courses in listing order, each refreshed; every stored enrolled course appears |
| EnrollmentService.IsStudentEnrolled | backend/src/main/java/com/courseverse/backend/service/EnrollmentService.java:108-117 | true iff the store answers and a matching enrollment exists; a store error gives false |
| UserRepository.UserRepository.constructor | backend/src/main/java/com/courseverse/backend/repository/UserRepository.java:22-24 | a collection whose users carry their own document id as `uid` |
| UserRepository.UserRepository.FindById | backend/src/main/java/com/courseverse/backend/repository/UserRepository.java:26-41 | present iff the uid is stored; then the stored user with `uid` set from the document id |
| UserRepository.UserRepository.Save | backend/src/main/java/com/courseverse/backend/repository/UserRepository.java:43-47 | writes the user under its own `uid`; nothing else changes |
| UserRepository.UserRepository.UpdateRoles | backend/src/main/java/com/courseverse/backend/repository/UserRepository.java:65-69 | replaces only that user's role list; a missing document fails with no write |
| CourseService.ExtractS3KeyFromUrl | backend/src/main/java/com/courseverse/backend/service/CourseService.java:216-240 | present iff the URL is non-blank and contains ".amazonaws.com/"; then the text after the first marker, up to the first '?' or the end |
| CourseService.EnrollmentCopyAgrees | backend/src/main/java/com/courseverse/backend/service/EnrollmentService.java:122-141 | the enrollment service's copy of the extractor computes the same function as the course service's |
| CourseService.MapLessons | backend/src/main/java/com/courseverse/backend/service/CourseService.java:141-151 | one lesson per DTO in order, each with a fresh id, the DTO's title and text, and the video object key stored as `videoUrl` |
| CourseService.MapModules | backend/src/main/java/com/courseverse/backend/service/CourseService.java:129-139 | succeeds iff every module DTO has a lesson list (a null list is a null dereference); then one module per DTO in order, mirroring its title and lessons |
| CourseService.BuildCourse | backend/src/main/java/com/courseverse/backend/service/CourseService.java:101-119 | title, description, instructor id (the principal) and instructor name copied; thumbnail key and link set only for a non-blank request key; modules mirror the DTOs in count and order; new course at zero enrollments in Draft |
| CourseService.CreateCourse | backend/src/main/java/com/courseverse/backend/service/CourseService.java:93-127 | a missing instructor gives NotFound with no write; otherwise the built course is saved under a fresh document id and returned with that `uid` |
| CourseService.RefreshKeepsListing | backend/src/main/java/com/courseverse/backend/service/CourseService.java:41-60 | refreshing a store listing course by course returns every document exactly once, each refreshed from its stored copy |
| CourseService.GetAllCourses | backend/src/main/java/com/courseverse/backend/service/CourseService.java:39-65 | returns every stored course exactly once, each refreshed from its stored copy, in the store's listing order |
| CourseService.GetCoursesByInstructor | backend/src/main/java/com/courseverse/backend/service/CourseService.java:182-208 | returns exactly the courses whose instructor is the principal, each once and refreshed from its stored copy, in the store's listing order |
| CourseService.GetCourseById | backend/src/main/java/com/courseverse/backend/service/CourseService.java:67-91 | NotFound for a missing id; otherwise the stored course, refreshed |
| CourseService.FindModule | backend/src/main/java/com/courseverse/backend/service/CourseService.java:166-169 | the first module with the id, or none when no module has it |
| CourseService.FindLesson | backend/src/main/java/com/courseverse/backend/service/CourseService.java:170-173 | the first lesson with the id, or none when no lesson has it |
| CourseService.LessonContent | backend/src/main/java/com/courseverse/backend/service/CourseService.java:153-180 | AccessDenied when not enrolled; then NotFound for the course; a null module list is a null dereference; NotFound when no module has the id; a null lesson list of the first matching module is a null dereference; NotFound when it has no such lesson; a success is the first match's read link and text |
| CourseService.FoundLessonIsServed | backend/src/main/java/com/courseverse/backend/service/CourseService.java:158-173 | the success direction: an enrolled caller whose course's first module with the id lists the lesson gets the first such lesson's read link and text |
| CourseService.NotEnrolledIgnoresCourse | backend/src/main/java/com/courseverse/backend/service/CourseService.java:158-163 | a caller who is not enrolled gets the same answer whatever the course, since the check precedes the lookup |
| CourseService.LessonContentIgnoresThumbnail | backend/src/main/java/com/courseverse/backend/service/CourseService.java:163-176 | the thumbnail refresh inside `getCourseById` does not affect the lesson content returned |
| CourseService.GetLessonContent | backend/src/main/java/com/courseverse/backend/service/CourseService.java:153-180 | the answer is `LessonContent` of the enrollment check (false on a store error) and the stored course |
| AdminService.FirstInvalidRole | backend/src/main/java/com/courseverse/backend/service/AdminService.java:36-42 | none iff every role is a `SecurityRoles` name; otherwise the index of the first that is not |
| AdminService.UpdateUserRoles | backend/src/main/java/com/courseverse/backend/service/AdminService.java:34-45 | a role outside `SecurityRoles` gives InvalidRole naming the first bad role, with no write; otherwise the stored role list becomes exactly the given list (a missing user is a store error) |
| AdminService.BeforeQuery | backend/src/main/java/com/courseverse/backend/service/AdminService.java:198-200 | the longest prefix without '?', followed by the first '?' or the end |
| AdminService.ExtractObjectKeyFromUrl | backend/src/main/java/com/courseverse/backend/service/AdminService.java:191-218 | null for a null or blank URL; otherwise, cut at the first '?', the non-empty text after the first '/' past the first ".s3", present iff such a '/' exists before the last character; null without ".s3" |
| AdminService.VideoDeleteRequests | backend/src/main/java/com/courseverse/backend/service/AdminService.java:69-80 | a lesson's video issues one delete, for its extracted key, exactly when the key is present and non-blank |
| AdminService.CourseDeleteRequestsAreCourseMedia | backend/src/main/java/com/courseverse/backend/service/AdminService.java:56-84 | a key is requested for deletion iff it is the non-blank thumbnail key or the key extracted from some lesson video of some module with a lesson list |
| AdminService.BareUploadKeyIssuesNoDelete | backend/src/main/java/com/courseverse/backend/service/AdminService.java:205-213 | a bare upload key with no ".s3" in the file name yields no key, so deleting its lesson issues no delete |
| AdminService.DeleteVideo | backend/src/main/java/com/courseverse/backend/service/AdminService.java:172-181 | sends the lesson video's delete requests and removes what the store accepts |
| AdminService.DeleteLessonVideos | backend/src/main/java/com/courseverse/backend/service/AdminService.java:114-127 | the loop sends the videos' delete requests lesson by lesson, in order |
| AdminService.DeleteOneModuleVideos | backend/src/main/java/com/courseverse/backend/service/AdminService.java:65-82 | sends a module's video deletes, none when its lesson list is null |
| AdminService.DeleteModuleVideos | backend/src/main/java/com/courseverse/backend/service/AdminService.java:63-84 | the nested loops send the video deletes module by module, in order |
| AdminService.DeleteCourseMedia | backend/src/main/java/com/courseverse/backend/service/AdminService.java:56-84 | sends the thumbnail delete, then every lesson video delete, and removes what the store accepts |
| AdminService.DeleteCourse | backend/src/main/java/com/courseverse/backend/service/AdminService.java:47-88 | a missing course gives NotFound with nothing deleted; otherwise the course media deletes are sent and then the document is removed |
| AdminService.DeleteModule | backend/src/main/java/com/courseverse/backend/service/AdminService.java:90-131 | NotFound for a missing course, a null module list or no matching module, each before any delete; otherwise the first matching module's video deletes are sent and every module with the id is removed from the document |
| AdminService.FindFirstModule | backend/src/main/java/com/courseverse/backend/service/AdminService.java:103-105 | the first module with the id; none iff no module has it |
| AdminService.FindFirstLesson | backend/src/main/java/com/courseverse/backend/service/AdminService.java:161-163 | the first lesson with the id; none iff no lesson has it |
| AdminService.LocateLesson | backend/src/main/java/com/courseverse/backend/service/AdminService.java:136-166 | a missing course is course NotFound; a null module list or no module with the id is module NotFound; a null lesson list or no lesson with the id in the first such module is lesson NotFound; otherwise the first lesson with the id in the first module with the id |
| AdminService.DeleteLesson | backend/src/main/java/com/courseverse/backend/service/AdminService.java:133-185 | a failed lookup returns its NotFound with nothing changed; otherwise the lesson's video delete is sent and then the repository removes the lesson |
| AdminService.DeletedLessonIsGone | backend/src/main/java/com/courseverse/backend/service/AdminService.java:183-184 | after a successful delete, the located module holds no lesson with the id and every other module is unchanged |
| UserDetailsService.Authorities | backend/src/main/java/com/courseverse/backend/security/UserDetailsServiceImpl.java:48-50 | one authority per role, in order |
| UserDetailsService.RoleNames | backend/src/main/java/com/courseverse/backend/security/FirebaseJwtFilter.java:56 | the role names of a list of authorities, in order |
| UserDetailsService.AuthoritiesRoundTrip | backend/src/main/java/com/courseverse/backend/security/UserDetailsServiceImpl.java:48-50 | the authorities' role names are exactly the user's roles |
| UserDetailsService.ToUserDetails | backend/src/main/java/com/courseverse/backend/security/UserDetailsServiceImpl.java:47-56 | principal name is the uid and authorities are the roles one-for-one; a null role list is a null dereference |
| UserDetailsService.Resolve | backend/src/main/java/com/courseverse/backend/security/UserDetailsServiceImpl.java:32-61 | an existing user is used as stored with no write, and with a role list it always succeeds with its uid and one authority per role; a missing one is provisioned as a student and saved; every failure is UsernameNotFound with no write |
| UserDetailsService.ProvisionedUserIsStudent | backend/src/main/java/com/courseverse/backend/security/UserDetailsServiceImpl.java:72-82 | a first load of a new uid yields that uid with the single authority ROLE_STUDENT |
| UserDetailsService.SecondLoadIsStable | backend/src/main/java/com/courseverse/backend/security/UserDetailsServiceImpl.java:35-45 | a second load after a successful first finds the stored user and changes nothing |
| UserDetailsService.CreateNewStudentUser | backend/src/main/java/com/courseverse/backend/security/UserDetailsServiceImpl.java:66-91 | writes the user with the uid, the profile's email and name and roles [ROLE_STUDENT]; a failed profile fetch or save is an error with no write |
| UserDetailsService.LoadUserByUsername | backend/src/main/java/com/courseverse/backend/security/UserDetailsServiceImpl.java:32-61 | result and new user store are exactly `Resolve` of the old store |
| FirebaseJwtFilter.BearerToken | backend/src/main/java/com/courseverse/backend/security/FirebaseJwtFilter.java:34-42 | a token iff the header is present and starts with "Bearer " (case-sensitive); then header = "Bearer " + token |
| FirebaseJwtFilter.BearerTokenRoundTrip | backend/src/main/java/com/courseverse/backend/security/FirebaseJwtFilter.java:42 | dropping the 7-character prefix gives back the token |
| FirebaseJwtFilter.LowerCaseSchemeIsIgnored | backend/src/main/java/com/courseverse/backend/security/FirebaseJwtFilter.java:34 | a "bearer " header is treated as no token |
| FirebaseJwtFilter.Filter | backend/src/main/java/com/courseverse/backend/security/FirebaseJwtFilter.java:28-72 | no Bearer token: chain continues, context untouched; a failed verify or load: 401, context cleared; otherwise the context holds the loaded user with its authorities and the chain continues |
| FirebaseJwtFilter.AuthenticatedRequestCarriesStoredRoles | backend/src/main/java/com/courseverse/backend/security/FirebaseJwtFilter.java:50-60 | an authenticated request's principal is the verified uid, and its authorities are that user's stored roles |
| FirebaseJwtFilter.DoFilterInternal | backend/src/main/java/com/courseverse/backend/security/FirebaseJwtFilter.java:28-72 | ends in exactly one of "chain continued" or "401", with the context `Filter` gives; the user store changes only by provisioning |
| WebSecurityConfig.Evaluate | backend/src/main/java/com/courseverse/backend/config/WebSecurityConfig.java:42-53 | with no matching rule access needs authentication; a permit comes from some matching permit rule |
| WebSecurityConfig.FirstMatchWins | backend/src/main/java/com/courseverse/backend/config/WebSecurityConfig.java:42-53 | rules apply in declaration order: the first matching rule decides |
| WebSecurityConfig.Allowed | backend/src/main/java/com/courseverse/backend/config/WebSecurityConfig.java:42-53 | an authenticated request is always let through; an anonymous one iff it is the health path, or a GET on /api/v1/courses or below it |
| WebSecurityConfig.HealthIsPublic | backend/src/main/java/com/courseverse/backend/config/WebSecurityConfig.java:44 | any method on the health path is permitted anonymously |
| WebSecurityConfig.CourseReadsArePublic | backend/src/main/java/com/courseverse/backend/config/WebSecurityConfig.java:45-47 | GET on /api/v1/courses and on any path below it is permitted anonymously |
| WebSecurityConfig.CourseWritesNeedAuthentication | backend/src/main/java/com/courseverse/backend/config/WebSecurityConfig.java:45-53 | any other method under /api/v1/courses, except the health path, needs authentication |
| WebSecurityConfig.RequiredAuthority | backend/src/main/java/com/courseverse/backend/controller/StudentController.java:30-47 | the authority demanded by the matching `@PreAuthorize` row of the table (the three student mappings here; admin, instructor, upload and course rows are pinned by the lemmas below), none iff no row matches |
| WebSecurityConfig.Authorize | backend/src/main/java/com/courseverse/backend/config/WebSecurityConfig.java:42-57 | permitted iff the permit table lets the request through and any required authority is held; a forbidden answer only ever goes to an authenticated caller |
| WebSecurityConfig.AnonymousPermitMeansPublicRoute | backend/src/main/java/com/courseverse/backend/config/WebSecurityConfig.java:42-53 | an anonymous request is permitted only on the public routes |
| WebSecurityConfig.InstructorOnlyIsNotPublic | backend/src/main/java/com/courseverse/backend/controller/CourseController.java:53-54 | /api/v1/courses/instructor-only passes the permit table anonymously but is rejected for an anonymous caller and forbidden to a caller without ROLE_INSTRUCTOR |
| WebSecurityConfig.AdminEndpointsNeedAdmin | backend/src/main/java/com/courseverse/backend/controller/AdminController.java:14-43 | deleting a course through the admin API is permitted iff the caller holds ROLE_ADMIN |
| WebSecurityConfig.InstructorEndpointsNeedInstructor | backend/src/main/java/com/courseverse/backend/controller/InstructorController.java:28-40 | creating a course and listing one's own courses demand ROLE_INSTRUCTOR, and a signed-in caller passes iff it holds that role |
| WebSecurityConfig.UploadLinkNeedsInstructor | backend/src/main/java/com/courseverse/backend/controller/UploadController.java:23-24 | asking for an upload link demands ROLE_INSTRUCTOR: a signed-in caller passes iff it holds that role, an anonymous one is asked to log in |
| KeyRecovery.BeforeQueryOfLink | backend/src/main/java/com/courseverse/backend/service/AdminService.java:198-200 | cutting a well-formed link at its first '?' leaves exactly the host and the key |
| KeyRecovery.MarkerFirstAtHostEnd | backend/src/main/java/com/courseverse/backend/service/CourseService.java:221-223 | in a well-formed link ".amazonaws.com/" first occurs at the end of the host |
| KeyRecovery.S3FirstAfterBucket | backend/src/main/java/com/courseverse/backend/service/AdminService.java:202-206 | in a well-formed link ".s3" first occurs right after the bucket name |
| KeyRecovery.HostSlashIsHostEnd | backend/src/main/java/com/courseverse/backend/service/AdminService.java:205-207 | the first '/' after that ".s3" is the one that ends the host |
| KeyRecovery.CourseServiceRecoversKey | backend/src/main/java/com/courseverse/backend/service/CourseService.java:210-235 | the course service's extractor returns exactly the key of a well-formed link, with or without a query |
| KeyRecovery.AdminServiceRecoversKey | backend/src/main/java/com/courseverse/backend/service/AdminService.java:196-209 | the admin service's extractor returns exactly the key of a well-formed link with a non-empty key |
| KeyRecovery.ExtractorsAgree | backend/src/main/java/com/courseverse/backend/service/AdminService.java:202-204 | on the virtual-hosted link shape both doc comments describe, the two extractors agree whenever the key is non-empty |
| KeyRecovery.ExtractorsDisagreeOnEmptyKey | backend/src/main/java/com/courseverse/backend/service/AdminService.java:208 | on a link to the bucket root the course side yields the empty key while the admin side yields null |

## Left out

- Concurrency is not modelled; the model is single-threaded. This leaves out the race of two first logins provisioning the same user, and the non-atomic read-modify-write of `enrollmentCount`.
- Firestore and S3 transport are left out, along with futures and `ExecutionException`/`InterruptedException`. A store failure is modelled only where the code reacts to it differently:
  - the enrollment check fails closed;
  - user loading reports UsernameNotFound;
  - object deletion swallows it;
  - read-link presigning returns null.
  Everywhere else such an exception would only be rethrown, and the model does not carry it.
- Presigning (AWS Signature V4) and Firebase ID-token verification are oracles. Their cryptography is not modelled. The presigner and credential setup in FirebaseConfig.java is not part of this model.
- `UUID.randomUUID` and Firestore's auto-generated ids are parameters: a fresh-id function or a fresh document id.
- `new Date()` is a parameter. The `double` progress field is stored as the literal 0.0 and nothing is computed from it.
- Logging to standard output and standard error is left out.
- Controllers, response shaping, the exception-to-status mapping and the CORS, CSRF and session settings are left out. Only the controllers' `@PreAuthorize` lines feed the role table.
- Path matching is over path segments:
  - a path variable matches any single segment;
  - Spring's own URL normalisation and the `/**` pattern syntax are not modelled beyond "this path or below".
- Spring Security library behaviour is not modelled: sorting of authorities, rejection of blank role strings, and the framework's 401/403 entry points.
- Null ids inside lists are not modelled. A module or lesson whose id is null would throw on `equals`, and ids are plain strings here.
- AdminService.UpdateUserRoles: a null role inside the list, or a null list, is not modelled. `SecurityRoles.valueOf(null)` throws a NullPointerException that the catch for IllegalArgumentException does not handle, and a null list throws at the loop; roles are a `seq<string>` here, which has neither.
- `AdminService.getAllUsers` and `UserRepository.findAll` are plain listings with nothing to prove beyond the store's listing, and are not modelled.
- `EnrollmentRepository.findByUserId` is modelled only through the set of enrolled course ids (`EnrollmentRepository.EnrolledCourseIds`), because the service uses nothing else from the returned list.
- AdminService.ExtractObjectKeyFromUrl: the `try`/`catch` around it is not modelled. On a non-null, non-blank URL none of its `substring`/`indexOf` calls can throw, so the handler is unreachable. The handler around the callers' extraction is likewise unreachable.
- AdminService.DeleteLessonVideos: states the requests sent, not the keys removed. The keys removed follow from the object store's invariant (`ObjectStore.Valid`) and `ObjectStore.RemovedByRequests`. AdminService.DeleteCourseMedia states both.
- AdminService.DeleteOneModuleVideos: like DeleteLessonVideos, states the requests sent; the keys removed follow from the store's invariant.
- AdminService.DeleteModuleVideos: like DeleteLessonVideos, states the requests sent; the keys removed follow from the store's invariant.
- UserRepository.UserRepository.UpdateRoles: Firestore's `update` on a missing document raises an error. It is modelled as an error result with no write, without the exception's details.
- CourseService.GetAllCourses: the order of the returned list is stated against a ghost listing of the store, because the store chooses the order. Its contents are stated directly. The same holds for CourseService.GetCoursesByInstructor and EnrollmentService.GetMyEnrolledCourses.
- LinkRefresh.RefreshThumbnail: a recovered thumbnail key goes into the returned in-memory course only. The code never writes it back to the store, so the model does not either.
