/** `EnrollmentRepository`: the "enrollments" collection, as a map from document id to enrollment. */
module EnrollmentRepository {
  import opened Wrappers
  import opened Model

  /** Some stored enrollment pairs the user with the course. */
  predicate HasEnrollment(docs: map<string, Enrollment>, userId: string, courseId: string) {
    exists id :: id in docs && docs[id].userId == userId && docs[id].courseId == courseId
  }

  /** The course ids of the user's enrollments (`findByUserId` mapped to `getCourseId`). */
  function EnrolledCourseIds(docs: map<string, Enrollment>, userId: string): (ids: set<string>)
    ensures forall courseId :: courseId in ids <==> HasEnrollment(docs, userId, courseId)
  {
    set id | id in docs && docs[id].userId == userId :: docs[id].courseId
  }

  class EnrollmentRepository {
    var documents: map<string, Enrollment>

    /** An enrollment's `uid` is its document id. */
    ghost predicate Valid()
      reads this
    {
      forall id :: id in documents ==> documents[id].uid == id
    }

    constructor (documents: map<string, Enrollment>)
      requires forall id :: id in documents ==> documents[id].uid == id
      ensures Valid() && this.documents == documents
    {
      this.documents := documents;
    }

    /** `findByUserIdAndCourseId` (a `limit(1)` query): one matching enrollment, if any. */
    method FindByUserIdAndCourseId(userId: string, courseId: string) returns (r: Option<Enrollment>)
      ensures r.Some? <==> HasEnrollment(documents, userId, courseId)
      ensures r.Some? ==> r.value in documents.Values && r.value.userId == userId && r.value.courseId == courseId
    {
      if HasEnrollment(documents, userId, courseId) {
        var id :| id in documents && documents[id].userId == userId && documents[id].courseId == courseId;
        r := Some(documents[id]);
      } else {
        r := None;
      }
    }

    /** `findByUserId`, reduced to the course ids the caller extracts from it. */
    method FindCourseIdsByUserId(userId: string) returns (ids: set<string>)
      ensures ids == EnrolledCourseIds(documents, userId)
    {
      ids := set id | id in documents && documents[id].userId == userId :: documents[id].courseId;
    }

    /** `save`: stores the enrollment under a fresh document id, which it also sets as `uid`. */
    method Save(enrollment: Enrollment, newId: string) returns (saved: Enrollment)
      requires Valid() && newId !in documents
      modifies this
      ensures Valid()
      ensures saved == enrollment.(uid := newId)
      ensures documents == old(documents)[newId := saved]
    {
      saved := enrollment.(uid := newId);
      documents := documents[newId := saved];
    }
  }
}
