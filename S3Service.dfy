/**
 * `S3Service`: object keys for uploads, time-boxed read and upload links, and
 * best-effort deletion. The presigner is an oracle (`Presigner`); the object
 * store is a set of keys (`ObjectStore`).
 */
module S3Service {
  import opened Wrappers
  import opened Text
  import opened Model

  /** Upload links are signed for 15 minutes. */
  const UploadSignatureSeconds: nat := 15 * 60
  /** Read links are signed for one hour. */
  const ReadSignatureSeconds: nat := 60 * 60

  const LessonsPrefix := "lessons/"

  /** What the presigner is asked to sign: an object of the bucket and a signature lifetime. */
  datatype PresignRequest = PresignRequest(bucket: string, key: string, signatureSeconds: nat)

  /**
   * The configured bucket and the SDK presigner; `None` from an oracle stands
   * for the exception the SDK throws.
   */
  datatype Presigner = Presigner(
    bucketName: string,
    presignPut: PresignRequest -> Option<string>,
    presignGet: PresignRequest -> Option<string>)

  predicate IsLowerHexDigit(c: char) {
    ('0' <= c <= '9') || ('a' <= c <= 'f')
  }

  /** The text of `UUID.randomUUID().toString()`: 36 lower-case hex digits and hyphens. */
  predicate UuidText(u: string) {
    |u| == 36 && forall i :: 0 <= i < |u| ==> IsLowerHexDigit(u[i]) || u[i] == '-'
  }

  /** Java string concatenation renders a null reference as "null". */
  function JavaText(s: Option<string>): string {
    if s.None? then "null" else s.value
  }

  /** The object key of an upload: `"lessons/" + uuid + "/" + originalFileName`. */
  function UploadObjectKey(uuid: string, originalFileName: Option<string>): (key: string)
    ensures StartsWith(key, LessonsPrefix)
    ensures |key| == |LessonsPrefix| + |uuid| + 1 + |JavaText(originalFileName)|
    ensures key[|LessonsPrefix|..|LessonsPrefix| + |uuid|] == uuid
    ensures key[|LessonsPrefix| + |uuid|] == '/'
    ensures key[|LessonsPrefix| + |uuid| + 1..] == JavaText(originalFileName)
  {
    LessonsPrefix + uuid + "/" + JavaText(originalFileName)
  }

  /**
   * Splits a key of the upload shape back into its unique segment and its
   * file name, at the first '/' after the "lessons/" prefix.
   */
  function ParseUploadKey(key: string): (r: Option<(string, string)>)
    ensures r.Some? ==> StartsWith(key, LessonsPrefix) && '/' !in r.value.0
    ensures r.Some? ==> key == LessonsPrefix + r.value.0 + "/" + r.value.1
  {
    if !StartsWith(key, LessonsPrefix) then None
    else
      var rest := key[|LessonsPrefix|..];
      var slash := IndexOf(rest, "/", 0);
      if slash == -1 then None
      else
        OccursAtChar(rest, '/', slash);
        forall i | 0 <= i < slash ensures rest[i] != '/' {
          OccursAtChar(rest, '/', i);
        }
        assert key == LessonsPrefix + rest[..slash] + "/" + rest[slash + 1..];
        Some((rest[..slash], rest[slash + 1..]))
  }

  /** The upload key round-trips: the unique segment and the file name are recovered exactly. */
  lemma {:induction false} UploadKeyRoundTrip(uuid: string, originalFileName: Option<string>)
    requires UuidText(uuid)
    ensures ParseUploadKey(UploadObjectKey(uuid, originalFileName)) == Some((uuid, JavaText(originalFileName)))
  {
    var key := UploadObjectKey(uuid, originalFileName);
    var rest := key[|LessonsPrefix|..];
    assert rest == uuid + "/" + JavaText(originalFileName);
    OccursAtChar(rest, '/', |uuid|);
    forall j | 0 <= j < |uuid| ensures !OccursAt(rest, "/", j) {
      OccursAtChar(rest, '/', j);
      assert rest[j] == uuid[j];
      assert IsLowerHexDigit(uuid[j]) || uuid[j] == '-';
    }
    IndexOfIs(rest, "/", 0, |uuid|);
    assert rest[..|uuid|] == uuid;
    assert rest[|uuid| + 1..] == JavaText(originalFileName);
  }

  /**
   * `generatePresignedUploadUrl`: a fresh key under "lessons/" and a
   * 15-minute upload link for it; the presigner's exception propagates.
   */
  function GeneratePresignedUploadUrl(p: Presigner, uuid: string, originalFileName: Option<string>)
    : (r: Result<SignedUrlResponse, Error>)
    ensures var request := PresignRequest(p.bucketName, UploadObjectKey(uuid, originalFileName), UploadSignatureSeconds);
      && (r.Ok? <==> p.presignPut(request).Some?)
      && (r.Ok? ==> r.value == SignedUrlResponse(p.presignPut(request).value, request.key))
      && (r.Err? ==> r.error == PresignFailure)
  {
    var objectKey := UploadObjectKey(uuid, originalFileName);
    match p.presignPut(PresignRequest(p.bucketName, objectKey, UploadSignatureSeconds))
    case Some(url) => Ok(SignedUrlResponse(url, objectKey))
    case None => Err(PresignFailure)
  }

  /**
   * `generatePresignedReadUrl`: null for a null or blank key without asking
   * the presigner; otherwise a one-hour read link, or null when presigning throws.
   */
  function GeneratePresignedReadUrl(p: Presigner, objectKey: Option<string>): (r: Option<string>)
    ensures NullOrBlank(objectKey) ==> r.None?
    ensures !NullOrBlank(objectKey) ==>
      r == p.presignGet(PresignRequest(p.bucketName, objectKey.value, ReadSignatureSeconds))
  {
    if NullOrBlank(objectKey) then None
    else p.presignGet(PresignRequest(p.bucketName, objectKey.value, ReadSignatureSeconds))
  }

  /** A blank key never reaches the presigner: any two presigners give the same (null) link. */
  lemma BlankKeyReadUrlIndependentOfPresigner(p: Presigner, q: Presigner, objectKey: Option<string>)
    requires NullOrBlank(objectKey)
    ensures GeneratePresignedReadUrl(p, objectKey) == GeneratePresignedReadUrl(q, objectKey) == None
  {
  }

  /**
   * Distinct unique ids give distinct upload keys, whatever the file names:
   * two uploads never share an object.
   */
  lemma UploadKeysAreDistinct(uuid1: string, name1: Option<string>, uuid2: string, name2: Option<string>)
    requires UuidText(uuid1) && UuidText(uuid2) && uuid1 != uuid2
    ensures UploadObjectKey(uuid1, name1) != UploadObjectKey(uuid2, name2)
  {
    UploadKeyRoundTrip(uuid1, name1);
    UploadKeyRoundTrip(uuid2, name2);
  }

  /** The delete requests `deleteObject` sends to the store: none for a null or blank key. */
  function DeleteRequestsFor(objectKey: Option<string>): (r: seq<string>)
    ensures NullOrBlank(objectKey) <==> r == []
    ensures r != [] ==> r == [objectKey.value]
  {
    if NullOrBlank(objectKey) then [] else [objectKey.value]
  }

  /** The keys a sequence of delete requests removes: those the store does not reject. */
  function Deleted(requests: seq<string>, failing: string -> bool): (d: set<string>)
    ensures forall k :: k in d <==> k in requests && !failing(k)
  {
    set k | k in requests && !failing(k)
  }

  lemma DeletedAppend(a: seq<string>, b: seq<string>, failing: string -> bool)
    ensures Deleted(a + b, failing) == Deleted(a, failing) + Deleted(b, failing)
  {
  }

  /** Deleting a key twice leaves the store as deleting it once. */
  lemma DeleteTwiceIsDeleteOnce(objects: set<string>, objectKey: Option<string>, failing: string -> bool)
    ensures var d := Deleted(DeleteRequestsFor(objectKey), failing);
      objects - d - d == objects - d
  {
  }

  /**
   * The object store: the keys it holds, the log of delete requests it has
   * received, and the keys whose deletion it rejects (network or permission
   * errors).
   */
  class ObjectStore {
    var objects: set<string>
    var deleteRequests: seq<string>
    const failing: string -> bool
    /** The keys held before any delete request arrived. */
    ghost const initialObjects: set<string>

    /** The store holds its initial keys minus every key a received request deleted. */
    ghost predicate Valid()
      reads this
    {
      objects == initialObjects - Deleted(deleteRequests, failing)
    }

    constructor (objects: set<string>, failing: string -> bool)
      ensures Valid()
      ensures this.objects == objects && deleteRequests == [] && this.failing == failing
    {
      this.objects := objects;
      this.deleteRequests := [];
      this.failing := failing;
      this.initialObjects := objects;
    }

    /**
     * `deleteObject`: returns at once on a null or blank key; otherwise sends
     * one delete request; a store error is swallowed, so the call never fails.
     * Deleting an absent key is a no-op.
     */
    method DeleteObject(objectKey: Option<string>)
      requires Valid()
      modifies this
      ensures Valid()
      ensures deleteRequests == old(deleteRequests) + DeleteRequestsFor(objectKey)
      ensures objects == old(objects) - Deleted(DeleteRequestsFor(objectKey), failing)
    {
      if NullOrBlank(objectKey) {
        return;
      }
      DeletedAppend(deleteRequests, [objectKey.value], failing);
      deleteRequests := deleteRequests + [objectKey.value];
      if !failing(objectKey.value) {
        objects := objects - {objectKey.value};
      }
    }

    /** What a run of requests removed, read off the request log. */
    lemma RemovedByRequests(before: set<string>, earlier: seq<string>, later: seq<string>)
      requires before == initialObjects - Deleted(earlier, failing)
      requires Valid() && deleteRequests == earlier + later
      ensures objects == before - Deleted(later, failing)
    {
      DeletedAppend(earlier, later, failing);
    }
  }
}
