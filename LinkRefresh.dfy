/**
 * The thumbnail link-refresh pass that `CourseService.getAllCourses`,
 * `getCourseById`, `getCoursesByInstructor` and
 * `EnrollmentService.getMyEnrolledCourses` each write out: prefer the stored
 * object key; else recover a key from the legacy URL and keep it on the copy
 * returned to the caller; else leave the course as it is. Each call site
 * passes its own key-recovery function (the two services have one copy each).
 */
module LinkRefresh {
  import opened Wrappers
  import opened Text
  import opened Model
  import opened S3Service

  /** Refreshes one course's thumbnail link, given the call site's key recovery. */
  function RefreshThumbnail(c: Course, p: Presigner, recoverKey: Option<string> -> Option<string>): (r: Course)
    // only the two thumbnail fields can change
    ensures r == c.(thumbnailUrl := r.thumbnailUrl, thumbnailObjectKey := r.thumbnailObjectKey)
    // a non-blank stored key is kept and a fresh link is signed for it
    ensures !NullOrBlank(c.thumbnailObjectKey) ==>
      r.thumbnailObjectKey == c.thumbnailObjectKey && r.thumbnailUrl == GeneratePresignedReadUrl(p, c.thumbnailObjectKey)
    // a legacy course whose URL yields a key gets a link for it and keeps the key
    ensures NullOrBlank(c.thumbnailObjectKey) && !NullOrBlank(c.thumbnailUrl) && recoverKey(c.thumbnailUrl).Some? ==>
      r.thumbnailObjectKey == recoverKey(c.thumbnailUrl) && r.thumbnailUrl == GeneratePresignedReadUrl(p, r.thumbnailObjectKey)
    // otherwise nothing changes
    ensures NullOrBlank(c.thumbnailObjectKey) && (NullOrBlank(c.thumbnailUrl) || recoverKey(c.thumbnailUrl).None?) ==>
      r == c
  {
    if !NullOrBlank(c.thumbnailObjectKey) then
      c.(thumbnailUrl := GeneratePresignedReadUrl(p, c.thumbnailObjectKey))
    else if !NullOrBlank(c.thumbnailUrl) then
      match recoverKey(c.thumbnailUrl)
      case Some(objectKey) =>
        c.(thumbnailUrl := GeneratePresignedReadUrl(p, Some(objectKey)), thumbnailObjectKey := Some(objectKey))
      case None => c
    else c
  }

  /**
   * After a refresh the stored key is the source of truth: whenever the
   * course carries a non-blank key, its link is the one signed for that key.
   */
  lemma RefreshedLinkFollowsKey(c: Course, p: Presigner, recoverKey: Option<string> -> Option<string>)
    ensures var r := RefreshThumbnail(c, p, recoverKey);
      !NullOrBlank(r.thumbnailObjectKey) ==> r.thumbnailUrl == GeneratePresignedReadUrl(p, r.thumbnailObjectKey)
  {
  }

  /**
   * Refreshing twice with the same presigner gives what refreshing once
   * gives: after a recovery the next pass takes the stored-key branch with
   * the recovered key (or, for a blank recovered key, finds nothing to do).
   */
  lemma RefreshIdempotent(c: Course, p: Presigner, recoverKey: Option<string> -> Option<string>)
    ensures RefreshThumbnail(RefreshThumbnail(c, p, recoverKey), p, recoverKey) == RefreshThumbnail(c, p, recoverKey)
  {
  }

  /**
   * The `forEach` over a fetched course list: every course refreshed in
   * place, so the list keeps its length and order.
   */
  method RefreshAll(courses: seq<Course>, p: Presigner, recoverKey: Option<string> -> Option<string>)
    returns (r: seq<Course>)
    ensures |r| == |courses|
    ensures forall i :: 0 <= i < |courses| ==> r[i] == RefreshThumbnail(courses[i], p, recoverKey)
  {
    r := [];
    var i := 0;
    while i < |courses|
      invariant 0 <= i <= |courses|
      invariant |r| == i
      invariant forall j :: 0 <= j < i ==> r[j] == RefreshThumbnail(courses[j], p, recoverKey)
    {
      r := r + [RefreshThumbnail(courses[i], p, recoverKey)];
      i := i + 1;
    }
  }
}
