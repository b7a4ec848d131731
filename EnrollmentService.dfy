/** `EnrollmentService`: enrolling, listing a student's courses, and the enrollment check. */
module EnrollmentService {
  import opened Wrappers
  import opened Text
  import opened Model
  import opened Seqs
  import opened S3Service
  import opened LinkRefresh
  import opened CourseRepository
  import opened EnrollmentRepository

  /**
   * This service's own copy of `extractS3KeyFromUrl`; it computes the same
   * function as `CourseService.ExtractS3KeyFromUrl` (lemma
   * `CourseService.EnrollmentCopyAgrees`).
   */
  function ExtractS3KeyFromUrl(url: Option<string>): Option<string> {
    if url.None? || IsBlank(url.value) then None
    else
      var u := url.value;
      var bucketEndIndex := IndexOf(u, ".amazonaws.com/", 0);
      if bucketEndIndex == -1 then None
      else
        var keyStartIndex := bucketEndIndex + |".amazonaws.com/"|;
        var queryStartIndex := IndexOf(u, "?", keyStartIndex);
        if queryStartIndex == -1 then Some(u[keyStartIndex..])
        else Some(u[keyStartIndex..queryStartIndex])
  }

  /**
   * `enrollStudent`: NotFound for a missing course and AlreadyEnrolled for a
   * repeated enrollment, both before any write; otherwise saves an
   * enrollment with zero progress and increments the course's Java `int`
   * counter.
   */
  method EnrollStudent(
    courses: CourseRepository, enrollments: EnrollmentRepository,
    courseId: string, userId: string, now: int, newId: string)
    returns (r: Result<Enrollment, Error>)
    requires courses.Valid() && enrollments.Valid() && newId !in enrollments.documents
    modifies courses, enrollments
    ensures courses.Valid() && enrollments.Valid()
    ensures courseId !in old(courses.documents) ==>
      && r == Err(NotFound(CourseEntity))
      && courses.documents == old(courses.documents) && enrollments.documents == old(enrollments.documents)
    ensures courseId in old(courses.documents) && HasEnrollment(old(enrollments.documents), userId, courseId) ==>
      && r == Err(AlreadyEnrolled)
      && courses.documents == old(courses.documents) && enrollments.documents == old(enrollments.documents)
    ensures courseId in old(courses.documents) && !HasEnrollment(old(enrollments.documents), userId, courseId) ==>
      && r == Ok(Enrollment(newId, userId, courseId, now, 0.0))
      && enrollments.documents == old(enrollments.documents)[newId := r.value]
      && var c := old(courses.documents)[courseId];
         courses.documents == old(courses.documents)[courseId := c.(enrollmentCount := Int32Increment(c.enrollmentCount))]
    ensures r.Ok? ==> HasEnrollment(enrollments.documents, userId, courseId)
  {
    var found := courses.FindById(courseId);
    if found.None? {
      return Err(NotFound(CourseEntity));
    }
    var course := found.value;
    var existing := enrollments.FindByUserIdAndCourseId(userId, courseId);
    if existing.Some? {
      return Err(AlreadyEnrolled);
    }
    var saved := enrollments.Save(Enrollment("", userId, courseId, now, 0.0), newId);
    course := course.(enrollmentCount := Int32Increment(course.enrollmentCount));
    courses.Update(course);
    assert enrollments.documents[newId] == saved;
    return Ok(saved);
  }

  /**
   * The enrollment `enrollStudent` saves puts the course among the user's
   * enrolled course ids (what `getMyEnrolledCourses` lists) and changes no
   * other user's ids; with `EnrollStudent`'s AlreadyEnrolled clause, a
   * repeated enrollment of the same user in the same course is rejected.
   */
  lemma EnrollmentListsCourse(docs: map<string, Enrollment>, newId: string, e: Enrollment, userId: string)
    requires newId !in docs
    ensures HasEnrollment(docs[newId := e], e.userId, e.courseId)
    ensures userId == e.userId ==> EnrolledCourseIds(docs[newId := e], userId) == EnrolledCourseIds(docs, userId) + {e.courseId}
    ensures userId != e.userId ==> EnrolledCourseIds(docs[newId := e], userId) == EnrolledCourseIds(docs, userId)
  {
    var after := docs[newId := e];
    assert after[newId] == e;
    forall courseId ensures HasEnrollment(after, userId, courseId) <==> HasEnrollment(docs, userId, courseId) || (userId == e.userId && courseId == e.courseId) {
      if HasEnrollment(docs, userId, courseId) {
        var id :| id in docs && docs[id].userId == userId && docs[id].courseId == courseId;
        assert after[id] == docs[id];
      }
      if HasEnrollment(after, userId, courseId) {
        var id :| id in after && after[id].userId == userId && after[id].courseId == courseId;
        if id != newId {
          assert docs[id] == after[id];
        }
      }
    }
  }

  /** The in-memory filter of `getMyEnrolledCourses`: the listed courses whose uid is enrolled. */
  function CoursesIn(listing: seq<Course>, ids: set<string>): (r: seq<Course>)
    ensures forall i :: 0 <= i < |r| ==> r[i] in listing && r[i].uid in ids
    ensures forall j :: 0 <= j < |listing| && listing[j].uid in ids ==> listing[j] in r
  {
    Filter(listing, (c: Course) => c.uid in ids)
  }

  /**
   * `getMyEnrolledCourses`: empty when the user has no enrollments;
   * otherwise the store listing filtered to the enrolled course ids, in
   * listing order, each thumbnail refreshed.
   */
  method GetMyEnrolledCourses(
    courses: CourseRepository, enrollments: EnrollmentRepository, userId: string, p: Presigner)
    returns (r: seq<Course>, ghost listing: seq<Course>)
    requires courses.Valid()
    ensures EnrolledCourseIds(enrollments.documents, userId) == {} ==> r == []
    ensures EnrolledCourseIds(enrollments.documents, userId) != {} ==>
      var selected := CoursesIn(listing, EnrolledCourseIds(enrollments.documents, userId));
      && IsListing(listing, courses.documents)
      && |r| == |selected|
      && forall i :: 0 <= i < |r| ==> r[i] == RefreshThumbnail(selected[i], p, ExtractS3KeyFromUrl)
    ensures forall i :: 0 <= i < |r| ==>
      && r[i].uid in EnrolledCourseIds(enrollments.documents, userId)
      && r[i].uid in courses.documents
      && r[i] == RefreshThumbnail(courses.documents[r[i].uid], p, ExtractS3KeyFromUrl)
    ensures forall id :: id in EnrolledCourseIds(enrollments.documents, userId) && id in courses.documents ==>
      exists i :: 0 <= i < |r| && r[i].uid == id
  {
    var courseIds := enrollments.FindCourseIdsByUserId(userId);
    if courseIds == {} {
      return [], [];
    }
    var all := courses.FindAll();
    listing := all;
    var selected := CoursesIn(all, courseIds);
    r := RefreshAll(selected, p, ExtractS3KeyFromUrl);
    forall id | id in courseIds && id in courses.documents
      ensures exists i :: 0 <= i < |r| && r[i].uid == id
    {
      var j :| 0 <= j < |all| && all[j].uid == id;
      var i :| 0 <= i < |selected| && selected[i] == all[j];
      assert r[i].uid == id;
    }
  }

  /**
   * `isStudentEnrolled`: true exactly when a matching enrollment exists; a
   * store error yields false (fail closed).
   */
  method IsStudentEnrolled(enrollments: EnrollmentRepository, userId: string, courseId: string, storeFails: bool)
    returns (enrolled: bool)
    ensures enrolled <==> !storeFails && HasEnrollment(enrollments.documents, userId, courseId)
  {
    if storeFails {
      return false;
    }
    var found := enrollments.FindByUserIdAndCourseId(userId, courseId);
    enrolled := found.Some?;
  }
}
