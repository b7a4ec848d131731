/**
 * `CourseService`: the catalogue read paths (each applying the thumbnail
 * refresh), course creation from an instructor's request, and lesson
 * content for enrolled students.
 */
module CourseService {
  import opened Wrappers
  import opened Text
  import opened Model
  import opened Seqs
  import opened S3Service
  import opened LinkRefresh
  import opened CourseRepository
  import opened EnrollmentRepository
  import EnrollmentService
  import UserRepository

  /** The marker that ends the host of a virtual-hosted S3 URL. */
  const AwsHostMarker := ".amazonaws.com/"

  /** `key` is the text of `u` from `start` up to the first '?' after it, or to the end. */
  ghost predicate KeyUpToQuery(u: string, start: int, key: string) {
    && 0 <= start && start + |key| <= |u|
    && u[start..start + |key|] == key
    && '?' !in key
    && (start + |key| == |u| || u[start + |key|] == '?')
  }

  /**
   * `extractS3KeyFromUrl`: null for a null or blank URL or one without the
   * host marker; otherwise the text after the first marker up to the first
   * '?' after it (or to the end).
   */
  function ExtractS3KeyFromUrl(url: Option<string>): (r: Option<string>)
    ensures r.Some? <==> !NullOrBlank(url) && Contains(url.value, AwsHostMarker)
    ensures r.Some? ==> forall b :: FirstOccurrence(url.value, AwsHostMarker, b) ==>
      KeyUpToQuery(url.value, b + |AwsHostMarker|, r.value)
  {
    if url.None? || IsBlank(url.value) then None
    else
      var u := url.value;
      var bucketEndIndex := IndexOf(u, AwsHostMarker, 0);
      if bucketEndIndex == -1 then None
      else
        var keyStartIndex := bucketEndIndex + |AwsHostMarker|;
        var queryStartIndex := IndexOf(u, "?", keyStartIndex);
        var key := if queryStartIndex == -1 then u[keyStartIndex..] else u[keyStartIndex..queryStartIndex];
        assert '?' !in key by {
          forall i | 0 <= i < |key| ensures key[i] != '?' {
            OccursAtChar(u, '?', keyStartIndex + i);
          }
        }
        assert keyStartIndex + |key| < |u| ==> u[keyStartIndex + |key|] == '?' by {
          OccursAtChar(u, '?', queryStartIndex);
        }
        Some(key)
  }

  // ---------------------------------------------------------------------
  // createCourse and its DTO mappers

  /**
   * `mapLessonDtoToModel` over a lesson list, the j-th lesson taking the
   * generated id `newId(next + j)`; a lesson's video object key is stored
   * as its `videoUrl`.
   */
  function MapLessons(dtos: seq<LessonDto>, newId: nat -> string, next: nat): (r: seq<Lesson>)
    ensures |r| == |dtos|
    ensures forall j :: 0 <= j < |dtos| ==>
      r[j] == Lesson(newId(next + j), dtos[j].title, dtos[j].videoObjectKey, dtos[j].textContent)
    decreases |dtos|
  {
    if |dtos| == 0 then []
    else
      var lesson := Lesson(newId(next), dtos[0].title, dtos[0].videoObjectKey, dtos[0].textContent);
      [lesson] + MapLessons(dtos[1..], newId, next + 1)
  }

  /** Every module DTO carries a lesson list (else the mapper dereferences null). */
  predicate AllLessonListsPresent(dtos: seq<ModuleDto>) {
    forall i :: 0 <= i < |dtos| ==> dtos[i].lessons.Some?
  }

  /** A mapped module mirrors its DTO: title, and lessons one-for-one in order with their video keys. */
  predicate Mirrors(m: Module, dto: ModuleDto) {
    && m.title == dto.title
    && dto.lessons.Some? && m.lessons.Some?
    && |m.lessons.value| == |dto.lessons.value|
    && forall j :: 0 <= j < |dto.lessons.value| ==>
        var l, d := m.lessons.value[j], dto.lessons.value[j];
        l.title == d.title && l.videoUrl == d.videoObjectKey && l.textContent == d.textContent
  }

  /**
   * `mapModuleDtoToModel` over the request's module list; each module takes
   * a generated id, then its lessons take the following ones. Fails with a
   * null dereference when some module has no lesson list.
   */
  function MapModules(dtos: seq<ModuleDto>, newId: nat -> string, next: nat): (r: Result<seq<Module>, Error>)
    ensures r.Ok? <==> AllLessonListsPresent(dtos)
    ensures r.Err? ==> r.error == NullReference
    ensures r.Ok? ==> |r.value| == |dtos| && forall i :: 0 <= i < |dtos| ==> Mirrors(r.value[i], dtos[i])
    decreases |dtos|
  {
    if |dtos| == 0 then Ok([])
    else if dtos[0].lessons.None? then Err(NullReference)
    else
      var lessons := dtos[0].lessons.value;
      var m := Module(newId(next), dtos[0].title, Some(MapLessons(lessons, newId, next + 1)));
      match MapModules(dtos[1..], newId, next + 1 + |lessons|)
      case Err(e) => Err(e)
      case Ok(rest) =>
        assert forall i :: 1 <= i < |dtos| ==> dtos[i] == dtos[1..][i - 1];
        Ok([m] + rest)
  }

  /**
   * The course `createCourse` builds before saving it: title, description,
   * the principal as instructor with the instructor's display name, the
   * thumbnail key and a read link only for a non-blank request key, the
   * mapped modules, no enrollments, and draft status.
   */
  function BuildCourse(
    request: CourseCreationRequest, instructorUid: string, instructor: User, p: Presigner, newId: nat -> string)
    : (r: Result<Course, Error>)
    ensures r.Ok? <==> request.modules.Some? && AllLessonListsPresent(request.modules.value)
    ensures r.Err? ==> r.error == NullReference
    ensures r.Ok? ==>
      var c := r.value;
      && c.title == request.title && c.description == request.description
      && c.instructorId == Some(instructorUid) && c.instructorName == instructor.displayName
      && (NullOrBlank(request.thumbnailObjectKey) ==> c.thumbnailObjectKey.None? && c.thumbnailUrl.None?)
      && (!NullOrBlank(request.thumbnailObjectKey) ==>
            c.thumbnailObjectKey == request.thumbnailObjectKey
            && c.thumbnailUrl == GeneratePresignedReadUrl(p, request.thumbnailObjectKey))
      && c.modules.Some? && |c.modules.value| == |request.modules.value|
      && (forall i :: 0 <= i < |request.modules.value| ==> Mirrors(c.modules.value[i], request.modules.value[i]))
      && c.enrollmentCount == 0 && c.publishStatus == DraftStatus
  {
    if request.modules.None? then Err(NullReference)
    else
      var hasThumbnail := !NullOrBlank(request.thumbnailObjectKey);
      var thumbnailKey := if hasThumbnail then request.thumbnailObjectKey else None;
      var thumbnailUrl := if hasThumbnail then GeneratePresignedReadUrl(p, request.thumbnailObjectKey) else None;
      match MapModules(request.modules.value, newId, 0)
      case Err(e) => Err(e)
      case Ok(modules) =>
        Ok(Course("", request.title, request.description, Some(instructorUid), instructor.displayName,
                  Some(modules), thumbnailUrl, thumbnailKey, 0, DraftStatus))
  }

  /**
   * `createCourse`: NotFound when the principal has no user record; then the
   * built course is saved under a fresh document id and returned.
   */
  method CreateCourse(
    users: UserRepository.UserRepository, courses: CourseRepository,
    request: CourseCreationRequest, principalName: string, p: Presigner, newId: nat -> string, newDocumentId: string)
    returns (r: Result<Course, Error>)
    requires users.Valid() && courses.Valid() && newDocumentId !in courses.documents
    modifies courses
    ensures courses.Valid()
    ensures principalName !in users.users ==>
      r == Err(NotFound(InstructorEntity)) && courses.documents == old(courses.documents)
    ensures principalName in users.users ==>
      match BuildCourse(request, principalName, users.users[principalName], p, newId)
      case Err(e) => r == Err(e) && courses.documents == old(courses.documents)
      case Ok(c) =>
        && r == Ok(c.(uid := newDocumentId))
        && courses.documents == old(courses.documents)[newDocumentId := c.(uid := newDocumentId)]
  {
    var instructor := users.FindById(principalName);
    if instructor.None? {
      return Err(NotFound(InstructorEntity));
    }
    var built := BuildCourse(request, principalName, instructor.value, p, newId);
    if built.Err? {
      return Err(built.error);
    }
    var saved := courses.Save(built.value, newDocumentId);
    return Ok(saved);
  }

  // ---------------------------------------------------------------------
  // Read paths

  /**
   * `r` holds every document of `docs` exactly once, each with its thumbnail
   * refreshed (the store chooses the order).
   */
  ghost predicate RefreshedListing(r: seq<Course>, docs: map<string, Course>, p: Presigner) {
    && (forall i :: 0 <= i < |r| ==> r[i].uid in docs && r[i] == RefreshThumbnail(docs[r[i].uid], p, ExtractS3KeyFromUrl))
    && (forall i, j :: 0 <= i < j < |r| ==> r[i].uid != r[j].uid)
    && (forall id :: id in docs ==> exists i :: 0 <= i < |r| && r[i].uid == id)
  }

  /** Refreshing a listing course by course keeps it a listing of the same documents. */
  lemma RefreshKeepsListing(listing: seq<Course>, r: seq<Course>, docs: map<string, Course>, p: Presigner)
    requires IsListing(listing, docs)
    requires |r| == |listing| && forall i :: 0 <= i < |r| ==> r[i] == RefreshThumbnail(listing[i], p, ExtractS3KeyFromUrl)
    ensures RefreshedListing(r, docs, p)
  {
    forall id | id in docs ensures exists i :: 0 <= i < |r| && r[i].uid == id {
      var i :| 0 <= i < |listing| && listing[i].uid == id;
      assert r[i].uid == id;
    }
  }

  /** `getAllCourses`: every stored course, in listing order, each thumbnail refreshed. */
  method GetAllCourses(courses: CourseRepository, p: Presigner)
    returns (r: seq<Course>, ghost listing: seq<Course>)
    requires courses.Valid()
    ensures IsListing(listing, courses.documents)
    ensures |r| == |listing|
    ensures forall i :: 0 <= i < |r| ==> r[i] == RefreshThumbnail(listing[i], p, ExtractS3KeyFromUrl)
    ensures RefreshedListing(r, courses.documents, p)
  {
    var fetched := courses.FindAll();
    listing := fetched;
    r := RefreshAll(fetched, p, ExtractS3KeyFromUrl);
    RefreshKeepsListing(fetched, r, courses.documents, p);
  }

  /** `getCoursesByInstructor`: the principal's courses, in listing order, each thumbnail refreshed. */
  method GetCoursesByInstructor(courses: CourseRepository, principalName: string, p: Presigner)
    returns (r: seq<Course>, ghost listing: seq<Course>)
    requires courses.Valid()
    ensures IsListing(listing, Where(courses.documents, (c: Course) => c.instructorId == Some(principalName)))
    ensures |r| == |listing|
    ensures forall i :: 0 <= i < |r| ==> r[i] == RefreshThumbnail(listing[i], p, ExtractS3KeyFromUrl)
    ensures RefreshedListing(r, Where(courses.documents, (c: Course) => c.instructorId == Some(principalName)), p)
  {
    var fetched := courses.FindByInstructorId(principalName);
    listing := fetched;
    r := RefreshAll(fetched, p, ExtractS3KeyFromUrl);
    RefreshKeepsListing(fetched, r, Where(courses.documents, (c: Course) => c.instructorId == Some(principalName)), p);
  }

  /**
   * `getCourseById`: NotFound for a missing course, else the stored course
   * with its thumbnail refreshed. The recovered legacy key is set on the
   * returned copy only; the store is not written.
   */
  method GetCourseById(courses: CourseRepository, courseId: string, p: Presigner)
    returns (r: Result<Course, Error>)
    requires courses.Valid()
    ensures courseId !in courses.documents ==> r == Err(NotFound(CourseEntity))
    ensures courseId in courses.documents ==>
      r == Ok(RefreshThumbnail(courses.documents[courseId], p, ExtractS3KeyFromUrl))
  {
    var found := courses.FindById(courseId);
    if found.None? {
      return Err(NotFound(CourseEntity));
    }
    r := Ok(RefreshThumbnail(found.value, p, ExtractS3KeyFromUrl));
  }

  // ---------------------------------------------------------------------
  // getLessonContent

  /** The index of the first module with the given id. */
  function FindModule(ms: seq<Module>, moduleId: string): (r: Option<nat>)
    ensures r.Some? ==>
      r.value < |ms| && ms[r.value].moduleId == moduleId && forall j :: 0 <= j < r.value ==> ms[j].moduleId != moduleId
    ensures r.None? ==> forall j :: 0 <= j < |ms| ==> ms[j].moduleId != moduleId
  {
    FirstIndex(ms, (m: Module) => m.moduleId == moduleId)
  }

  /** The index of the first lesson with the given id. */
  function FindLesson(ls: seq<Lesson>, lessonId: string): (r: Option<nat>)
    ensures r.Some? ==>
      r.value < |ls| && ls[r.value].lessonId == lessonId && forall j :: 0 <= j < r.value ==> ls[j].lessonId != lessonId
    ensures r.None? ==> forall j :: 0 <= j < |ls| ==> ls[j].lessonId != lessonId
  {
    FirstIndex(ls, (l: Lesson) => l.lessonId == lessonId)
  }

  /**
   * What `getLessonContent` returns, given the enrollment check's answer and
   * the course lookup: AccessDenied first; then NotFound for the course, the
   * module (first id match) and the lesson (first id match in that module);
   * a null module or lesson list is dereferenced; otherwise a read link for
   * the lesson's stored video key and its text.
   */
  function LessonContent(enrolled: bool, course: Option<Course>, moduleId: string, lessonId: string, p: Presigner)
    : (r: Result<LessonContentResponse, Error>)
    ensures !enrolled ==> r == Err(AccessDenied)
    ensures enrolled && course.None? ==> r == Err(NotFound(CourseEntity))
    ensures r.Ok? ==>
      && enrolled && course.Some? && course.value.modules.Some?
      && var ms := course.value.modules.value;
         exists i :: 0 <= i < |ms| && ms[i].moduleId == moduleId
           && (forall k :: 0 <= k < i ==> ms[k].moduleId != moduleId)
           && ms[i].lessons.Some?
           && (exists j :: 0 <= j < |ms[i].lessons.value| && ms[i].lessons.value[j].lessonId == lessonId
                && (forall k :: 0 <= k < j ==> ms[i].lessons.value[k].lessonId != lessonId)
                && r.value == LessonContentResponse(
                     GeneratePresignedReadUrl(p, ms[i].lessons.value[j].videoUrl), ms[i].lessons.value[j].textContent))
    ensures enrolled && course.Some? && course.value.modules.Some?
      && (forall i :: 0 <= i < |course.value.modules.value| ==> course.value.modules.value[i].moduleId != moduleId)
      ==> r == Err(NotFound(ModuleEntity))
    ensures enrolled && course.Some? && course.value.modules.None? ==> r == Err(NullReference)
    ensures enrolled && course.Some? && course.value.modules.Some? ==>
      var ms := course.value.modules.value;
      forall i :: 0 <= i < |ms| && ms[i].moduleId == moduleId && (forall k :: 0 <= k < i ==> ms[k].moduleId != moduleId) ==>
        && (ms[i].lessons.None? ==> r == Err(NullReference))
        && (ms[i].lessons.Some? && (forall j :: 0 <= j < |ms[i].lessons.value| ==> ms[i].lessons.value[j].lessonId != lessonId)
            ==> r == Err(NotFound(LessonEntity)))
  {
    if !enrolled then Err(AccessDenied)
    else if course.None? then Err(NotFound(CourseEntity))
    else if course.value.modules.None? then Err(NullReference)
    else
      var ms := course.value.modules.value;
      match FindModule(ms, moduleId)
      case None => Err(NotFound(ModuleEntity))
      case Some(i) =>
        if ms[i].lessons.None? then Err(NullReference)
        else
          var ls := ms[i].lessons.value;
          match FindLesson(ls, lessonId)
          case None => Err(NotFound(LessonEntity))
          case Some(j) => Ok(LessonContentResponse(GeneratePresignedReadUrl(p, ls[j].videoUrl), ls[j].textContent))
  }

  /**
   * The success direction of `LessonContent`: an enrolled caller asking for a
   * lesson that the first module with the id lists gets the read link of the
   * first lesson with the id and its text.
   */
  lemma FoundLessonIsServed(course: Course, moduleId: string, lessonId: string, p: Presigner, i: nat, j: nat)
    requires course.modules.Some?
    requires var ms := course.modules.value;
      && i < |ms| && ms[i].moduleId == moduleId && (forall k :: 0 <= k < i ==> ms[k].moduleId != moduleId)
      && ms[i].lessons.Some?
      && j < |ms[i].lessons.value| && ms[i].lessons.value[j].lessonId == lessonId
      && (forall k :: 0 <= k < j ==> ms[i].lessons.value[k].lessonId != lessonId)
    ensures var lesson := course.modules.value[i].lessons.value[j];
      LessonContent(true, Some(course), moduleId, lessonId, p)
        == Ok(LessonContentResponse(GeneratePresignedReadUrl(p, lesson.videoUrl), lesson.textContent))
  {
    var ms := course.modules.value;
    assert FindModule(ms, moduleId) == Some(i);
    assert FindLesson(ms[i].lessons.value, lessonId) == Some(j);
  }

  /** The enrollment check runs first: without it, the course store does not matter. */
  lemma NotEnrolledIgnoresCourse(c1: Option<Course>, c2: Option<Course>, moduleId: string, lessonId: string, p: Presigner)
    ensures LessonContent(false, c1, moduleId, lessonId, p) == LessonContent(false, c2, moduleId, lessonId, p)
  {
  }

  /** Refreshing the thumbnail (as `getCourseById` does) does not change the lesson content served. */
  lemma LessonContentIgnoresThumbnail(c: Course, moduleId: string, lessonId: string, p: Presigner)
    ensures LessonContent(true, Some(RefreshThumbnail(c, p, ExtractS3KeyFromUrl)), moduleId, lessonId, p)
         == LessonContent(true, Some(c), moduleId, lessonId, p)
  {
  }

  /** `EnrollmentService` carries a verbatim copy of the key recovery; it computes the same function. */
  lemma EnrollmentCopyAgrees(url: Option<string>)
    ensures EnrollmentService.ExtractS3KeyFromUrl(url) == ExtractS3KeyFromUrl(url)
  {
  }

  /** `getLessonContent`: the enrollment check, then `getCourseById`, then the lesson lookup. */
  method GetLessonContent(
    enrollments: EnrollmentRepository, courses: CourseRepository,
    principalName: string, courseId: string, moduleId: string, lessonId: string,
    enrollmentStoreFails: bool, p: Presigner)
    returns (r: Result<LessonContentResponse, Error>)
    requires courses.Valid()
    ensures var enrolled := !enrollmentStoreFails && HasEnrollment(enrollments.documents, principalName, courseId);
      var stored := if courseId in courses.documents then Some(courses.documents[courseId]) else None;
      r == LessonContent(enrolled, stored, moduleId, lessonId, p)
  {
    var enrolled := EnrollmentService.IsStudentEnrolled(enrollments, principalName, courseId, enrollmentStoreFails);
    if !enrolled {
      return Err(AccessDenied);
    }
    var course := GetCourseById(courses, courseId, p);
    if course.Err? {
      return Err(course.error);
    }
    LessonContentIgnoresThumbnail(courses.documents[courseId], moduleId, lessonId, p);
    r := LessonContent(true, Some(course.value), moduleId, lessonId, p);
  }
}
