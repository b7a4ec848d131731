/**
 * `CourseRepository`: the "courses" collection of the document store, as a
 * map from document id to course. Reading a document fills `uid` with its id.
 */
module CourseRepository {
  import opened Wrappers
  import opened Model
  import opened Seqs

  /** The course list of a module after dropping every module with the given id. */
  function WithoutModule(ms: seq<Module>, moduleId: string): (r: seq<Module>)
    ensures forall i :: 0 <= i < |r| ==> r[i].moduleId != moduleId && r[i] in ms
    ensures forall j :: 0 <= j < |ms| && ms[j].moduleId != moduleId ==> ms[j] in r
  {
    Filter(ms, (m: Module) => m.moduleId != moduleId)
  }

  /** A module's lesson list after dropping every lesson with the given id. */
  function WithoutLesson(ls: seq<Lesson>, lessonId: string): (r: seq<Lesson>)
    ensures forall i :: 0 <= i < |r| ==> r[i].lessonId != lessonId && r[i] in ls
    ensures forall j :: 0 <= j < |ls| && ls[j].lessonId != lessonId ==> ls[j] in r
  {
    Filter(ls, (l: Lesson) => l.lessonId != lessonId)
  }

  /** The module that `deleteLesson` edits: first id match that has a lesson list. */
  predicate EditableModule(m: Module, moduleId: string) {
    m.moduleId == moduleId && m.lessons.Some?
  }

  /**
   * The module list after `deleteLesson`: the lessons with the given id are
   * dropped from the first editable module only; nothing else changes.
   */
  function LessonRemoved(ms: seq<Module>, moduleId: string, lessonId: string): (r: seq<Module>)
    ensures |r| == |ms|
    ensures forall j :: 0 <= j < |ms| ==> r[j].moduleId == ms[j].moduleId && r[j].title == ms[j].title
    ensures forall j :: 0 <= j < |ms| && r[j] != ms[j] ==>
      && EditableModule(ms[j], moduleId)
      && (forall k :: 0 <= k < j ==> !EditableModule(ms[k], moduleId))
      && r[j].lessons == Some(WithoutLesson(ms[j].lessons.value, lessonId))
    ensures forall j ::
      0 <= j < |ms| && EditableModule(ms[j], moduleId) && (forall k :: 0 <= k < j ==> !EditableModule(ms[k], moduleId))
      ==> r[j].lessons == Some(WithoutLesson(ms[j].lessons.value, lessonId))
    ensures (forall j :: 0 <= j < |ms| ==> !EditableModule(ms[j], moduleId)) ==> r == ms
  {
    match FirstIndex(ms, (m: Module) => EditableModule(m, moduleId))
    case None => ms
    case Some(i) => ms[i := ms[i].(lessons := Some(WithoutLesson(ms[i].lessons.value, lessonId)))]
  }

  /** The edited module keeps a lesson exactly when its id differs, in the original order. */
  lemma {:induction false} WithoutLessonKeepsOrder(a: seq<Lesson>, b: seq<Lesson>, lessonId: string)
    ensures WithoutLesson(a + b, lessonId) == WithoutLesson(a, lessonId) + WithoutLesson(b, lessonId)
  {
    FilterAppend(a, b, (l: Lesson) => l.lessonId != lessonId);
  }

  /** Dropping modules keeps the others in their original order. */
  lemma {:induction false} WithoutModuleKeepsOrder(a: seq<Module>, b: seq<Module>, moduleId: string)
    ensures WithoutModule(a + b, moduleId) == WithoutModule(a, moduleId) + WithoutModule(b, moduleId)
  {
    FilterAppend(a, b, (m: Module) => m.moduleId != moduleId);
  }

  /**
   * `r` lists exactly the documents of `docs`, each once, each as stored
   * (the store chooses the order).
   */
  ghost predicate IsListing(r: seq<Course>, docs: map<string, Course>) {
    && (forall i :: 0 <= i < |r| ==> r[i].uid in docs && docs[r[i].uid] == r[i])
    && (forall i, j :: 0 <= i < j < |r| ==> r[i].uid != r[j].uid)
    && (forall id :: id in docs ==> exists i :: 0 <= i < |r| && r[i].uid == id)
  }

  /** The documents a `whereEqualTo` query selects. */
  function Where(docs: map<string, Course>, keep: Course -> bool): (sel: map<string, Course>)
    ensures sel.Keys <= docs.Keys
    ensures forall id :: id in sel <==> id in docs && keep(docs[id])
    ensures forall id :: id in sel ==> sel[id] == docs[id]
  {
    map id | id in docs && keep(docs[id]) :: docs[id]
  }

  class CourseRepository {
    var documents: map<string, Course>

    /** A document's `uid` is its id. */
    ghost predicate Valid()
      reads this
    {
      forall id :: id in documents ==> documents[id].uid == id
    }

    constructor (documents: map<string, Course>)
      requires forall id :: id in documents ==> documents[id].uid == id
      ensures Valid() && this.documents == documents
    {
      this.documents := documents;
    }

    /** A query: the selected documents, in an order the store chooses. */
    method FindWhere(keep: Course -> bool) returns (r: seq<Course>)
      requires Valid()
      ensures IsListing(r, Where(documents, keep))
    {
      var selected := Where(documents, keep);
      var remaining := selected.Keys;
      r := [];
      while remaining != {}
        invariant remaining <= selected.Keys
        invariant forall i :: 0 <= i < |r| ==> r[i].uid in selected && selected[r[i].uid] == r[i] && r[i].uid !in remaining
        invariant forall i, j :: 0 <= i < j < |r| ==> r[i].uid != r[j].uid
        invariant forall id :: id in selected && id !in remaining ==> exists i :: 0 <= i < |r| && r[i].uid == id
        decreases remaining
      {
        var id :| id in remaining;
        var course := selected[id];
        assert course.uid == id;
        ghost var before := r;
        r := r + [course];
        remaining := remaining - {id};
        forall other | other in selected && other !in remaining
          ensures exists i :: 0 <= i < |r| && r[i].uid == other
        {
          if other == id {
            assert r[|before|].uid == other;
          } else {
            var i :| 0 <= i < |before| && before[i].uid == other;
            assert r[i].uid == other;
          }
        }
      }
    }

    /** `findAll`. */
    method FindAll() returns (r: seq<Course>)
      requires Valid()
      ensures IsListing(r, documents)
    {
      r := FindWhere((c: Course) => true);
      assert Where(documents, (c: Course) => true) == documents;
    }

    /** `findByInstructorId`: the courses whose `instructorId` equals the given uid. */
    method FindByInstructorId(instructorId: string) returns (r: seq<Course>)
      requires Valid()
      ensures IsListing(r, Where(documents, (c: Course) => c.instructorId == Some(instructorId)))
    {
      r := FindWhere((c: Course) => c.instructorId == Some(instructorId));
    }

    /** `findById`: the stored course, or empty when no document has the id. */
    method FindById(courseId: string) returns (r: Option<Course>)
      requires Valid()
      ensures r.Some? <==> courseId in documents
      ensures r.Some? ==> r.value == documents[courseId] && r.value.uid == courseId
    {
      if courseId in documents {
        r := Some(documents[courseId]);
      } else {
        r := None;
      }
    }

    /** `save`: stores the course under a fresh document id, which it also sets as `uid`. */
    method Save(course: Course, newId: string) returns (saved: Course)
      requires Valid() && newId !in documents
      modifies this
      ensures Valid()
      ensures saved == course.(uid := newId)
      ensures documents == old(documents)[newId := saved]
    {
      saved := course.(uid := newId);
      documents := documents[newId := saved];
    }

    /** `update`: overwrites (or creates) the document named by `course.uid`. */
    method Update(course: Course)
      requires Valid()
      modifies this
      ensures Valid()
      ensures documents == old(documents)[course.uid := course]
    {
      documents := documents[course.uid := course];
    }

    /** `deleteById`: removes that one document; deleting a missing id changes nothing. */
    method DeleteById(courseId: string)
      requires Valid()
      modifies this
      ensures Valid()
      ensures documents == old(documents) - {courseId}
    {
      documents := documents - {courseId};
    }

    /**
     * `deleteModule`: when the course exists and has a module list, drops
     * every module with the given id and writes the course back; otherwise
     * writes nothing.
     */
    method DeleteModule(courseId: string, moduleId: string)
      requires Valid()
      modifies this
      ensures Valid()
      ensures courseId in old(documents) && old(documents)[courseId].modules.Some? ==>
        var c := old(documents)[courseId];
        documents == old(documents)[courseId := c.(modules := Some(WithoutModule(c.modules.value, moduleId)))]
      ensures !(courseId in old(documents) && old(documents)[courseId].modules.Some?) ==> documents == old(documents)
    {
      if courseId in documents {
        var course := documents[courseId];
        if course.modules.Some? {
          course := course.(modules := Some(WithoutModule(course.modules.value, moduleId)));
          documents := documents[courseId := course];
        }
      }
    }

    /**
     * `deleteLesson`: when the course exists and has a module list, walks the
     * modules up to the first one with the given id and a lesson list, drops
     * the lessons with the given id from it, and writes the course back (even
     * when no module matched); otherwise writes nothing.
     */
    method DeleteLesson(courseId: string, moduleId: string, lessonId: string)
      requires Valid()
      modifies this
      ensures Valid()
      ensures courseId in old(documents) && old(documents)[courseId].modules.Some? ==>
        var c := old(documents)[courseId];
        documents == old(documents)[courseId := c.(modules := Some(LessonRemoved(c.modules.value, moduleId, lessonId)))]
      ensures !(courseId in old(documents) && old(documents)[courseId].modules.Some?) ==> documents == old(documents)
    {
      if courseId in documents {
        var course := documents[courseId];
        if course.modules.Some? {
          var modules := course.modules.value;
          var i := 0;
          while i < |modules|
            invariant 0 <= i <= |modules|
            invariant modules == course.modules.value
            invariant forall k :: 0 <= k < i ==> !EditableModule(modules[k], moduleId)
          {
            if modules[i].moduleId == moduleId && modules[i].lessons.Some? {
              modules := modules[i := modules[i].(lessons := Some(WithoutLesson(modules[i].lessons.value, lessonId)))];
              break;
            }
            i := i + 1;
          }
          assert modules == LessonRemoved(course.modules.value, moduleId, lessonId);
          documents := documents[courseId := course.(modules := Some(modules))];
        }
      }
    }
  }
}
