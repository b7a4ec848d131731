/**
 * `AdminService`: role assignment, and the cascading deletes of a course,
 * a module or a lesson, which first issue best-effort deletes for the
 * stored media and then change the course document.
 */
module AdminService {
  import opened Wrappers
  import opened Text
  import opened Model
  import opened Seqs
  import opened S3Service
  import opened CourseRepository
  import opened UserRepository

  /** The position of the first role that `SecurityRoles.valueOf` rejects. */
  function FirstInvalidRole(roles: seq<string>): (r: Option<nat>)
    ensures r.None? <==> forall i :: 0 <= i < |roles| ==> roles[i] in SecurityRoles
    ensures r.Some? ==>
      r.value < |roles| && roles[r.value] !in SecurityRoles && forall i :: 0 <= i < r.value ==> roles[i] in SecurityRoles
  {
    FirstIndex(roles, (role: string) => role !in SecurityRoles)
  }

  /**
   * `updateUserRoles`: every role is checked first, and the first invalid
   * one is reported without any write; then the user's role list is
   * replaced by exactly the given list (a missing user makes the store's
   * field update fail).
   */
  method UpdateUserRoles(users: UserRepository, uid: string, roles: seq<string>) returns (r: Result<(), Error>)
    requires users.Valid()
    modifies users
    ensures users.Valid()
    ensures FirstInvalidRole(roles).Some? ==>
      r == Err(InvalidRole(roles[FirstInvalidRole(roles).value])) && users.users == old(users.users)
    ensures FirstInvalidRole(roles).None? && uid !in old(users.users) ==>
      r == Err(StoreFailure) && users.users == old(users.users)
    ensures FirstInvalidRole(roles).None? && uid in old(users.users) ==>
      r == Ok(()) && users.users == old(users.users)[uid := old(users.users)[uid].(roles := Some(roles))]
  {
    var i := 0;
    while i < |roles|
      invariant 0 <= i <= |roles|
      invariant forall k :: 0 <= k < i ==> roles[k] in SecurityRoles
    {
      if roles[i] !in SecurityRoles {
        return Err(InvalidRole(roles[i]));
      }
      i := i + 1;
    }
    r := users.UpdateRoles(uid, roles);
  }

  // ---------------------------------------------------------------------
  // extractObjectKeyFromUrl

  /** The text before the first '?', or all of `u` when it has none. */
  function BeforeQuery(u: string): (r: string)
    ensures |r| <= |u| && r == u[..|r|]
    ensures '?' !in r
    ensures |r| < |u| ==> u[|r|] == '?'
  {
    var q := IndexOf(u, "?", 0);
    assert forall i :: 0 <= i < (if q == -1 then |u| else q) ==> u[i] != '?' by {
      forall i | 0 <= i < (if q == -1 then |u| else q) ensures u[i] != '?' {
        OccursAtChar(u, '?', i);
      }
    }
    if q == -1 then u
    else
      OccursAtChar(u, '?', q);
      u[..q]
  }

  /**
   * `b` is the first '/' at or after the first ".s3" of `u`: in a
   * virtual-hosted URL, the '/' that ends the bucket host.
   */
  ghost predicate HostSlash(u: string, b: int) {
    exists s :: FirstOccurrence(u, ".s3", s) && s <= b < |u| && u[b] == '/'
      && forall j :: s <= j < b ==> u[j] != '/'
  }

  /**
   * `extractObjectKeyFromUrl`: null for a null or blank URL; otherwise,
   * after cutting the URL at its first '?', the text after the first '/'
   * that follows the first ".s3", or null when there is no ".s3", no such
   * '/', or nothing after it.
   */
  function ExtractObjectKeyFromUrl(videoUrl: Option<string>): (r: Option<string>)
    ensures NullOrBlank(videoUrl) ==> r.None?
    ensures !NullOrBlank(videoUrl) ==>
      var u := BeforeQuery(videoUrl.value);
      && (r.Some? <==> exists b :: HostSlash(u, b) && b < |u| - 1)
      && (r.Some? ==> exists b :: HostSlash(u, b) && r.value == u[b + 1..])
      && (!Contains(u, ".s3") ==> r.None?)
    ensures r.Some? ==> r.value != [] && '?' !in r.value
  {
    if videoUrl.None? || IsBlank(videoUrl.value) then None
    else
      var u := BeforeQuery(videoUrl.value);
      var startIndex := IndexOf(u, ".s3", 0);
      if startIndex == -1 then
        ContainsIffIndexOf(u, ".s3");
        assert forall b :: !HostSlash(u, b);
        None
      else
        var slashIndex := IndexOf(u, "/", startIndex);
        assert forall b | HostSlash(u, b) :: b == slashIndex by {
          forall b | HostSlash(u, b) ensures b == slashIndex {
            var s :| FirstOccurrence(u, ".s3", s) && s <= b < |u| && u[b] == '/'
              && forall j :: s <= j < b ==> u[j] != '/';
            IndexOfIs(u, ".s3", 0, s);
            OccursAtChar(u, '/', b);
            forall j | s <= j < b ensures !OccursAt(u, "/", j) {
              OccursAtChar(u, '/', j);
            }
            IndexOfIs(u, "/", s, b);
          }
        }
        if slashIndex != -1 && slashIndex < |u| - 1 then
          assert HostSlash(u, slashIndex) by {
            assert FirstOccurrence(u, ".s3", startIndex);
            OccursAtChar(u, '/', slashIndex);
            forall j | startIndex <= j < slashIndex ensures u[j] != '/' {
              OccursAtChar(u, '/', j);
            }
          }
          Some(u[slashIndex + 1..])
        else
          None
  }

  // ---------------------------------------------------------------------
  // The object deletes a cascading delete issues

  /** The delete a lesson's video causes: one for a recovered key that is not blank. */
  function VideoDeleteRequests(l: Lesson): (r: seq<string>)
    ensures r == [] <==> NullOrBlank(ExtractObjectKeyFromUrl(l.videoUrl))
    ensures r != [] ==> r == [ExtractObjectKeyFromUrl(l.videoUrl).value]
  {
    match ExtractObjectKeyFromUrl(l.videoUrl)
    case None => []
    case Some(key) => DeleteRequestsFor(Some(key))
  }

  /** The deletes for a list of lessons, in list order. */
  function LessonsDeleteRequests(ls: seq<Lesson>): seq<string> {
    FlatMap(ls, VideoDeleteRequests)
  }

  /** The deletes for one module's lessons; none when the list is null. */
  function ModuleDeleteRequests(m: Module): seq<string> {
    if m.lessons.None? then [] else LessonsDeleteRequests(m.lessons.value)
  }

  /** The deletes for a list of modules, in list order. */
  function ModulesDeleteRequests(ms: seq<Module>): seq<string> {
    FlatMap(ms, ModuleDeleteRequests)
  }

  /** The deletes `deleteCourse` issues: the thumbnail first, then each lesson video. */
  function CourseDeleteRequests(c: Course): seq<string> {
    DeleteRequestsFor(c.thumbnailObjectKey) + (if c.modules.None? then [] else ModulesDeleteRequests(c.modules.value))
  }

  /**
   * A key is requested by `deleteCourse` exactly when it is the non-blank
   * thumbnail key or the non-blank key recovered from some lesson's video.
   */
  lemma CourseDeleteRequestsAreCourseMedia(c: Course, k: string)
    ensures k in CourseDeleteRequests(c) <==>
      || (!NullOrBlank(c.thumbnailObjectKey) && k == c.thumbnailObjectKey.value)
      || (c.modules.Some? && exists i, j ::
            && 0 <= i < |c.modules.value| && c.modules.value[i].lessons.Some?
            && 0 <= j < |c.modules.value[i].lessons.value|
            && ExtractObjectKeyFromUrl(c.modules.value[i].lessons.value[j].videoUrl) == Some(k) && !IsBlank(k))
  {
    if c.modules.Some? {
      var ms := c.modules.value;
      FlatMapMembers(ms, ModuleDeleteRequests, k);
      forall i | 0 <= i < |ms| && ms[i].lessons.Some? {
        FlatMapMembers(ms[i].lessons.value, VideoDeleteRequests, k);
      }
    }
  }

  /**
   * Lesson videos saved through the upload flow hold the bare object key.
   * It has no ".s3" unless the file name does, so the cascading deletes
   * issue no delete for such a video.
   */
  lemma BareUploadKeyIssuesNoDelete(uuid: string, originalFileName: Option<string>, l: Lesson)
    requires UuidText(uuid) && !Contains(JavaText(originalFileName), ".s3")
    requires l.videoUrl == Some(UploadObjectKey(uuid, originalFileName))
    ensures ExtractObjectKeyFromUrl(l.videoUrl) == None
    ensures VideoDeleteRequests(l) == []
  {
    var key := UploadObjectKey(uuid, originalFileName);
    var name := JavaText(originalFileName);
    var offset := |LessonsPrefix| + |uuid| + 1;
    forall k | 0 <= k && k + 3 <= |key| ensures !OccursAt(key, ".s3", k) {
      if k < |LessonsPrefix| {
        assert key[..|LessonsPrefix|] == LessonsPrefix;
        assert key[k] == LessonsPrefix[k] != '.';
      } else if k < |LessonsPrefix| + |uuid| {
        assert key[k] == uuid[k - |LessonsPrefix|];
        assert IsLowerHexDigit(uuid[k - |LessonsPrefix|]) || uuid[k - |LessonsPrefix|] == '-';
      } else if k == |LessonsPrefix| + |uuid| {
        assert key[k] == '/';
      } else {
        assert key[offset..] == name;
        assert !OccursAt(name, ".s3", k - offset);
        assert key[k..k + 3] == name[k - offset..k - offset + 3];
      }
    }
    assert !Contains(key, ".s3");
    if !IsBlank(key) {
      NotContainsPrefix(key, |BeforeQuery(key)|, ".s3");
    }
  }

  // ---------------------------------------------------------------------
  // The cascading deletes

  /** Issues the delete for a lesson's video when a key can be recovered from its link. */
  method DeleteVideo(store: ObjectStore, l: Lesson)
    requires store.Valid()
    modifies store
    ensures store.Valid()
    ensures store.deleteRequests == old(store.deleteRequests) + VideoDeleteRequests(l)
    ensures store.objects == old(store.objects) - Deleted(VideoDeleteRequests(l), store.failing)
  {
    var key := ExtractObjectKeyFromUrl(l.videoUrl);
    if key.Some? {
      store.DeleteObject(key);
    }
  }

  /** Issues the deletes for each lesson's video, in list order. */
  method DeleteLessonVideos(store: ObjectStore, ls: seq<Lesson>)
    requires store.Valid()
    modifies store
    ensures store.Valid()
    ensures store.deleteRequests == old(store.deleteRequests) + LessonsDeleteRequests(ls)
  {
    var j := 0;
    while j < |ls|
      invariant 0 <= j <= |ls|
      invariant store.Valid()
      invariant store.deleteRequests == old(store.deleteRequests) + LessonsDeleteRequests(ls[..j])
    {
      DeleteVideo(store, ls[j]);
      FlatMapStep(ls, VideoDeleteRequests, j);
      j := j + 1;
    }
    assert ls[..j] == ls;
  }

  /** Issues the deletes for the videos of one module's lessons, if it has a lesson list. */
  method DeleteOneModuleVideos(store: ObjectStore, m: Module)
    requires store.Valid()
    modifies store
    ensures store.Valid()
    ensures store.deleteRequests == old(store.deleteRequests) + ModuleDeleteRequests(m)
  {
    if m.lessons.Some? {
      DeleteLessonVideos(store, m.lessons.value);
    }
  }

  /** Issues the deletes for the videos of each module's lessons, in list order. */
  method DeleteModuleVideos(store: ObjectStore, ms: seq<Module>)
    requires store.Valid()
    modifies store
    ensures store.Valid()
    ensures store.deleteRequests == old(store.deleteRequests) + ModulesDeleteRequests(ms)
  {
    var i := 0;
    while i < |ms|
      invariant 0 <= i <= |ms|
      invariant store.Valid()
      invariant store.deleteRequests == old(store.deleteRequests) + ModulesDeleteRequests(ms[..i])
    {
      DeleteOneModuleVideos(store, ms[i]);
      FlatMapStep(ms, ModuleDeleteRequests, i);
      i := i + 1;
    }
    assert ms[..i] == ms;
  }

  /** Deletes a course's thumbnail (when its key is not blank) and then its lesson videos. */
  method DeleteCourseMedia(store: ObjectStore, course: Course)
    requires store.Valid()
    modifies store
    ensures store.Valid()
    ensures store.deleteRequests == old(store.deleteRequests) + CourseDeleteRequests(course)
    ensures store.objects == old(store.objects) - Deleted(CourseDeleteRequests(course), store.failing)
  {
    if !NullOrBlank(course.thumbnailObjectKey) {
      store.DeleteObject(course.thumbnailObjectKey);
    }
    ghost var thumbnail := DeleteRequestsFor(course.thumbnailObjectKey);
    assert store.deleteRequests == old(store.deleteRequests) + thumbnail;
    if course.modules.Some? {
      DeleteModuleVideos(store, course.modules.value);
      assert store.deleteRequests == old(store.deleteRequests) + (thumbnail + ModulesDeleteRequests(course.modules.value));
    } else {
      assert thumbnail + [] == thumbnail;
    }
    store.RemovedByRequests(old(store.objects), old(store.deleteRequests), CourseDeleteRequests(course));
  }

  /**
   * `deleteCourse`: NotFound, with nothing deleted, for a missing course;
   * otherwise the thumbnail (when its key is not blank) and every lesson
   * video with a recoverable key are deleted, then the course document.
   */
  method DeleteCourse(courses: CourseRepository, store: ObjectStore, courseId: string) returns (r: Result<(), Error>)
    requires courses.Valid() && store.Valid()
    modifies courses, store
    ensures courses.Valid() && store.Valid()
    ensures courseId !in old(courses.documents) ==>
      && r == Err(NotFound(CourseEntity))
      && courses.documents == old(courses.documents)
      && store.deleteRequests == old(store.deleteRequests) && store.objects == old(store.objects)
    ensures courseId in old(courses.documents) ==>
      var requests := CourseDeleteRequests(old(courses.documents)[courseId]);
      && r == Ok(())
      && courses.documents == old(courses.documents) - {courseId}
      && store.deleteRequests == old(store.deleteRequests) + requests
      && store.objects == old(store.objects) - Deleted(requests, store.failing)
  {
    var found := courses.FindById(courseId);
    if found.None? {
      return Err(NotFound(CourseEntity));
    }
    DeleteCourseMedia(store, found.value);
    courses.DeleteById(courseId);
    r := Ok(());
  }

  /**
   * `deleteModule`: NotFound for a missing course, a null module list, or
   * no module with the id, each before any delete; otherwise the videos of
   * the first module with the id are deleted, then every module with the
   * id is dropped from the document.
   */
  method DeleteModule(courses: CourseRepository, store: ObjectStore, courseId: string, moduleId: string)
    returns (r: Result<(), Error>)
    requires courses.Valid() && store.Valid()
    modifies courses, store
    ensures courses.Valid() && store.Valid()
    ensures courseId !in old(courses.documents) ==> r == Err(NotFound(CourseEntity))
    ensures courseId in old(courses.documents) && old(courses.documents)[courseId].modules.None? ==>
      r == Err(NotFound(ModuleEntity))
    ensures courseId in old(courses.documents) && old(courses.documents)[courseId].modules.Some?
            && FindFirstModule(old(courses.documents)[courseId].modules.value, moduleId).None? ==>
      r == Err(NotFound(ModuleEntity))
    ensures r.Err? ==>
      && courses.documents == old(courses.documents)
      && store.deleteRequests == old(store.deleteRequests) && store.objects == old(store.objects)
    ensures r.Ok? <==>
      courseId in old(courses.documents) && old(courses.documents)[courseId].modules.Some?
      && FindFirstModule(old(courses.documents)[courseId].modules.value, moduleId).Some?
    ensures r.Ok? ==>
      var c := old(courses.documents)[courseId];
      var ms := c.modules.value;
      var requests := ModuleDeleteRequests(ms[FindFirstModule(ms, moduleId).value]);
      && courses.documents == old(courses.documents)[courseId := c.(modules := Some(WithoutModule(ms, moduleId)))]
      && store.deleteRequests == old(store.deleteRequests) + requests
      && store.objects == old(store.objects) - Deleted(requests, store.failing)
  {
    var found := courses.FindById(courseId);
    if found.None? {
      return Err(NotFound(CourseEntity));
    }
    var course := found.value;
    if course.modules.None? {
      return Err(NotFound(ModuleEntity));
    }
    var index := FindFirstModule(course.modules.value, moduleId);
    if index.None? {
      return Err(NotFound(ModuleEntity));
    }
    DeleteOneModuleVideos(store, course.modules.value[index.value]);
    store.RemovedByRequests(old(store.objects), old(store.deleteRequests), ModuleDeleteRequests(course.modules.value[index.value]));
    courses.DeleteModule(courseId, moduleId);
    r := Ok(());
  }

  /** The position of the first module with the given id (`stream().filter(..).findFirst()`). */
  function FindFirstModule(ms: seq<Module>, moduleId: string): (r: Option<nat>)
    ensures r.None? <==> forall i :: 0 <= i < |ms| ==> ms[i].moduleId != moduleId
    ensures r.Some? ==>
      r.value < |ms| && ms[r.value].moduleId == moduleId && forall i :: 0 <= i < r.value ==> ms[i].moduleId != moduleId
  {
    FirstIndex(ms, (m: Module) => m.moduleId == moduleId)
  }

  /** The position of the first lesson with the given id. */
  function FindFirstLesson(ls: seq<Lesson>, lessonId: string): (r: Option<nat>)
    ensures r.None? <==> forall j :: 0 <= j < |ls| ==> ls[j].lessonId != lessonId
    ensures r.Some? ==>
      r.value < |ls| && ls[r.value].lessonId == lessonId && forall j :: 0 <= j < r.value ==> ls[j].lessonId != lessonId
  {
    FirstIndex(ls, (l: Lesson) => l.lessonId == lessonId)
  }

  /**
   * The lesson `deleteLesson` finds, or which step fails: the course, its
   * module list, the first module with the id, its lesson list, and the
   * first lesson with the id, each NotFound when absent.
   */
  function LocateLesson(course: Option<Course>, moduleId: string, lessonId: string): (r: Result<Lesson, Error>)
    ensures course.None? ==> r == Err(NotFound(CourseEntity))
    ensures r.Err? ==> r.error in {NotFound(CourseEntity), NotFound(ModuleEntity), NotFound(LessonEntity)}
    ensures r.Ok? <==>
      && course.Some? && course.value.modules.Some?
      && var ms := course.value.modules.value;
         exists i :: 0 <= i < |ms| && ms[i].moduleId == moduleId && (forall k :: 0 <= k < i ==> ms[k].moduleId != moduleId)
           && ms[i].lessons.Some? && exists j :: 0 <= j < |ms[i].lessons.value| && ms[i].lessons.value[j].lessonId == lessonId
    ensures r.Ok? ==> r.value.lessonId == lessonId
    ensures course.Some? && course.value.modules.None? ==> r == Err(NotFound(ModuleEntity))
    ensures course.Some? && course.value.modules.Some? ==>
      var ms := course.value.modules.value;
      && ((forall i :: 0 <= i < |ms| ==> ms[i].moduleId != moduleId) ==> r == Err(NotFound(ModuleEntity)))
      && forall i :: 0 <= i < |ms| && ms[i].moduleId == moduleId && (forall k :: 0 <= k < i ==> ms[k].moduleId != moduleId) ==>
           && (ms[i].lessons.None? ==> r == Err(NotFound(LessonEntity)))
           && (ms[i].lessons.Some? && (forall j :: 0 <= j < |ms[i].lessons.value| ==> ms[i].lessons.value[j].lessonId != lessonId)
               ==> r == Err(NotFound(LessonEntity)))
           && (ms[i].lessons.Some? ==>
                forall j ::
                  (0 <= j < |ms[i].lessons.value| && ms[i].lessons.value[j].lessonId == lessonId
                   && (forall k :: 0 <= k < j ==> ms[i].lessons.value[k].lessonId != lessonId))
                  ==> r == Ok(ms[i].lessons.value[j]))
  {
    if course.None? then Err(NotFound(CourseEntity))
    else if course.value.modules.None? then Err(NotFound(ModuleEntity))
    else
      var ms := course.value.modules.value;
      match FindFirstModule(ms, moduleId)
      case None => Err(NotFound(ModuleEntity))
      case Some(i) =>
        if ms[i].lessons.None? then Err(NotFound(LessonEntity))
        else
          match FindFirstLesson(ms[i].lessons.value, lessonId)
          case None => Err(NotFound(LessonEntity))
          case Some(j) => Ok(ms[i].lessons.value[j])
  }

  /**
   * `deleteLesson`: the NotFound chain of `LocateLesson`, each step before
   * any delete; then the found lesson's video is deleted and the lesson is
   * dropped from the document.
   */
  method DeleteLesson(courses: CourseRepository, store: ObjectStore, courseId: string, moduleId: string, lessonId: string)
    returns (r: Result<(), Error>)
    requires courses.Valid() && store.Valid()
    modifies courses, store
    ensures courses.Valid() && store.Valid()
    ensures var stored := if courseId in old(courses.documents) then Some(old(courses.documents)[courseId]) else None;
      match LocateLesson(stored, moduleId, lessonId)
      case Err(e) =>
        && r == Err(e)
        && courses.documents == old(courses.documents)
        && store.deleteRequests == old(store.deleteRequests) && store.objects == old(store.objects)
      case Ok(lesson) =>
        var c := old(courses.documents)[courseId];
        && r == Ok(())
        && courses.documents
           == old(courses.documents)[courseId := c.(modules := Some(LessonRemoved(c.modules.value, moduleId, lessonId)))]
        && store.deleteRequests == old(store.deleteRequests) + VideoDeleteRequests(lesson)
        && store.objects == old(store.objects) - Deleted(VideoDeleteRequests(lesson), store.failing)
  {
    var found := courses.FindById(courseId);
    var located := LocateLesson(found, moduleId, lessonId);
    if located.Err? {
      return Err(located.error);
    }
    DeleteVideo(store, located.value);
    courses.DeleteLesson(courseId, moduleId, lessonId);
    r := Ok(());
  }

  /** The lesson `deleteLesson` removes is gone from the module the lookup found. */
  lemma DeletedLessonIsGone(c: Course, moduleId: string, lessonId: string)
    requires LocateLesson(Some(c), moduleId, lessonId).Ok?
    ensures var ms := c.modules.value;
      var i := FindFirstModule(ms, moduleId).value;
      var r := LessonRemoved(ms, moduleId, lessonId);
      && r[i].lessons.Some?
      && (forall j :: 0 <= j < |r[i].lessons.value| ==> r[i].lessons.value[j].lessonId != lessonId)
      && (forall k :: 0 <= k < |ms| && k != i ==> r[k] == ms[k])
  {
    var ms := c.modules.value;
    var i := FindFirstModule(ms, moduleId).value;
    var r := LessonRemoved(ms, moduleId, lessonId);
    assert EditableModule(ms[i], moduleId);
  }
}
