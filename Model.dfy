/**
 * The persisted records (`model/`), the request and response records
 * (`dto/`) and the exceptions the services throw, as Dafny values.
 * A field that Java may leave null is an `Option`; document and entry ids
 * are plain strings.
 */
module Model {
  import opened Wrappers

  /** Java `int`: the type of `Course.enrollmentCount`. */
  newtype int32 = x: int | -0x8000_0000 <= x < 0x8000_0000

  const Int32Max: int32 := 0x7FFF_FFFF
  const Int32Min: int32 := -0x8000_0000

  /** `x + 1` on a Java `int`: wraps from the largest value to the smallest. */
  function Int32Increment(x: int32): (r: int32)
    ensures x < Int32Max ==> r as int == x as int + 1
    ensures x == Int32Max ==> r == Int32Min
    ensures (r as int - x as int - 1) % 0x1_0000_0000 == 0
  {
    if x == Int32Max then Int32Min else x + 1
  }

  datatype Lesson = Lesson(
    lessonId: string,
    title: Option<string>,
    /** For lessons created through the instructor API this holds the bare object key. */
    videoUrl: Option<string>,
    textContent: Option<string>)

  datatype Module = Module(
    moduleId: string,
    title: Option<string>,
    lessons: Option<seq<Lesson>>)

  datatype Course = Course(
    /** The document id; "" before the course is first saved. */
    uid: string,
    title: Option<string>,
    description: Option<string>,
    instructorId: Option<string>,
    instructorName: Option<string>,
    modules: Option<seq<Module>>,
    thumbnailUrl: Option<string>,
    thumbnailObjectKey: Option<string>,
    enrollmentCount: int32,
    publishStatus: string)

  /** A stored user; `roles` holds `SecurityRoles` names such as "ROLE_STUDENT". */
  datatype User = User(
    uid: string,
    email: Option<string>,
    displayName: Option<string>,
    roles: Option<seq<string>>)

  /** `enrolledAt` is a clock reading in milliseconds; `progress` lies in 0.0..1.0. */
  datatype Enrollment = Enrollment(
    uid: string,
    userId: string,
    courseId: string,
    enrolledAt: int,
    progress: real)

  datatype LessonDto = LessonDto(title: Option<string>, textContent: Option<string>, videoObjectKey: Option<string>)

  datatype ModuleDto = ModuleDto(title: Option<string>, lessons: Option<seq<LessonDto>>)

  datatype CourseCreationRequest = CourseCreationRequest(
    title: Option<string>,
    description: Option<string>,
    modules: Option<seq<ModuleDto>>,
    thumbnailObjectKey: Option<string>)

  datatype SignedUrlResponse = SignedUrlResponse(url: string, objectKey: string)

  datatype LessonContentResponse = LessonContentResponse(videoUrl: Option<string>, textContent: Option<string>)

  datatype Entity = CourseEntity | ModuleEntity | LessonEntity | InstructorEntity

  /** The exceptions that leave the core. */
  datatype Error =
    | NotFound(entity: Entity)   // ResourceNotFoundException
    | AccessDenied               // AccessDeniedException: caller is not enrolled
    | AlreadyEnrolled            // IllegalStateException from enrollStudent
    | InvalidRole(role: string)  // IllegalArgumentException from updateUserRoles
    | UsernameNotFound           // UsernameNotFoundException from loadUserByUsername
    | NullReference              // NullPointerException on a null list
    | StoreFailure               // ExecutionException from the document store
    | PresignFailure             // exception thrown by the presigner
    | ProvisioningFailure        // RuntimeException from createNewStudentUser

  /** The names of the `SecurityRoles` enum constants, as stored in `User.roles`. */
  const RoleStudent := "ROLE_STUDENT"
  const RoleInstructor := "ROLE_INSTRUCTOR"
  const RoleAdmin := "ROLE_ADMIN"
  const SecurityRoles: set<string> := {RoleStudent, RoleInstructor, RoleAdmin}

  /** A new course's publication state (`Course.publishStatus` default). */
  const DraftStatus := "Draft"
}
