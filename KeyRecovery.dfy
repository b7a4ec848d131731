/**
 * The two key extractors side by side: `CourseService.extractS3KeyFromUrl`
 * (text after ".amazonaws.com/") and `AdminService.extractObjectKeyFromUrl`
 * (text after the first '/' past ".s3"), on the virtual-hosted link shape both
 * are written for, `https://<bucket>.s3<region part>.amazonaws.com/<key>[?<query>]`.
 */
module KeyRecovery {
  import opened Wrappers
  import opened Text
  import CourseService
  import AdminService

  /** `https://<bucket>.s3<regionPart>.amazonaws.com/`, everything before the key. */
  function Host(bucket: string, regionPart: string): (h: string)
    ensures |h| == |bucket| + |regionPart| + 26
  {
    "https://" + bucket + ".s3" + regionPart + ".amazonaws.com/"
  }

  /** A presigned or plain virtual-hosted link to `key`. */
  function VirtualHostedUrl(bucket: string, regionPart: string, key: string, query: string): string {
    Host(bucket, regionPart) + key + query
  }

  /**
   * The shape the extractors assume: a host without '/' or '?' in its
   * bucket or region part, a bucket name without ".s3", a key without '?',
   * and a query that is empty or starts at a '?'.
   */
  ghost predicate WellFormed(bucket: string, regionPart: string, key: string, query: string) {
    && (forall i :: 0 <= i < |bucket| ==> bucket[i] != '/' && bucket[i] != '?')
    && (forall i :: 0 <= i < |regionPart| ==> regionPart[i] != '/' && regionPart[i] != '?')
    && !Contains(bucket, ".s3")
    && '?' !in key
    && (query == [] || query[0] == '?')
  }

  /** The characters of the host, position by position. */
  lemma HostLayout(bucket: string, regionPart: string)
    ensures var h := Host(bucket, regionPart);
      && h[..8] == "https://"
      && (forall i :: 8 <= i < 8 + |bucket| ==> h[i] == bucket[i - 8])
      && h[8 + |bucket|..11 + |bucket|] == ".s3"
      && (forall i :: 11 + |bucket| <= i < 11 + |bucket| + |regionPart| ==> h[i] == regionPart[i - 11 - |bucket|])
      && h[|h| - 15..] == CourseService.AwsHostMarker
  {
  }

  /** Past the scheme, the host's only '/' is its last character, and it has no '?'. */
  lemma HostSeparators(bucket: string, regionPart: string)
    requires forall i :: 0 <= i < |bucket| ==> bucket[i] != '/' && bucket[i] != '?'
    requires forall i :: 0 <= i < |regionPart| ==> regionPart[i] != '/' && regionPart[i] != '?'
    ensures var h := Host(bucket, regionPart);
      && (forall i :: 8 <= i < |h| - 1 ==> h[i] != '/')
      && h[|h| - 1] == '/'
      && '?' !in h
  {
    var h := Host(bucket, regionPart);
    HostLayout(bucket, regionPart);
    forall i | 0 <= i < |h| ensures h[i] != '?' && (8 <= i < |h| - 1 ==> h[i] != '/') {
      if i < 8 {
        assert h[i] == "https://"[i];
      } else if i < 8 + |bucket| {
      } else if i < 11 + |bucket| {
        assert h[i] == ".s3"[i - 8 - |bucket|];
      } else if i < 11 + |bucket| + |regionPart| {
      } else {
        assert h[i] == CourseService.AwsHostMarker[i - (|h| - 15)];
      }
    }
  }

  /** Everything before the first '?' of the link is the host and the key. */
  lemma BeforeQueryOfLink(bucket: string, regionPart: string, key: string, query: string)
    requires WellFormed(bucket, regionPart, key, query)
    ensures AdminService.BeforeQuery(VirtualHostedUrl(bucket, regionPart, key, query)) == Host(bucket, regionPart) + key
  {
    var h := Host(bucket, regionPart);
    var url := VirtualHostedUrl(bucket, regionPart, key, query);
    var r := AdminService.BeforeQuery(url);
    HostSeparators(bucket, regionPart);
    var n := |h| + |key|;
    assert url[..n] == h + key;
    forall i | 0 <= i < n ensures url[i] != '?' {
      if i < |h| {
        assert url[i] == h[i];
      } else {
        assert url[i] == key[i - |h|];
      }
    }
    assert n < |url| ==> url[n] == query[0] == '?';
    forall i | 0 <= i < |r| ensures r[i] == url[i] {}
    assert |r| == n;
  }

  /** In a link (or its part before the query), ".amazonaws.com/" first occurs where the host ends it. */
  lemma MarkerFirstAtHostEnd(bucket: string, regionPart: string, rest: string)
    requires forall i :: 0 <= i < |bucket| ==> bucket[i] != '/' && bucket[i] != '?'
    requires forall i :: 0 <= i < |regionPart| ==> regionPart[i] != '/' && regionPart[i] != '?'
    ensures var h := Host(bucket, regionPart);
      FirstOccurrence(h + rest, CourseService.AwsHostMarker, |h| - 15)
  {
    var h := Host(bucket, regionPart);
    var u := h + rest;
    var marker := CourseService.AwsHostMarker;
    HostLayout(bucket, regionPart);
    HostSeparators(bucket, regionPart);
    assert u[|h| - 15..|h|] == h[|h| - 15..];
    forall j | 0 <= j < |h| - 15 ensures !OccursAt(u, marker, j) {
      assert u[j + 14] == h[j + 14] != '/';
      assert j + 15 <= |u| ==> u[j..j + 15][14] == u[j + 14];
    }
  }

  /** In the host and key, ".s3" first occurs right after the bucket name. */
  lemma S3FirstAfterBucket(bucket: string, regionPart: string, key: string)
    requires !Contains(bucket, ".s3")
    ensures FirstOccurrence(Host(bucket, regionPart) + key, ".s3", 8 + |bucket|)
  {
    var h := Host(bucket, regionPart);
    var u := h + key;
    var s := 8 + |bucket|;
    HostLayout(bucket, regionPart);
    assert u[s..s + 3] == ".s3";
    forall j | 0 <= j < s ensures !OccursAt(u, ".s3", j) {
      if j < 8 {
        assert u[j] == "https://"[j] != '.';
        assert u[j..j + 3][0] == u[j];
      } else if j + 3 <= s {
        assert u[j..j + 3] == bucket[j - 8..j - 5];
        assert !OccursAt(bucket, ".s3", j - 8);
      } else if j == s - 1 {
        assert u[j + 1] == '.' && u[j..j + 3][1] == u[j + 1];
      } else {
        assert u[j + 2] == '.' && u[j..j + 3][2] == u[j + 2];
      }
    }
  }

  /** The '/' after the first ".s3" in the host and key is the one that ends the host. */
  lemma HostSlashIsHostEnd(bucket: string, regionPart: string, key: string)
    requires WellFormed(bucket, regionPart, key, [])
    ensures var u := Host(bucket, regionPart) + key;
      forall b :: AdminService.HostSlash(u, b) <==> b == |Host(bucket, regionPart)| - 1
  {
    var h := Host(bucket, regionPart);
    var u := h + key;
    var s0 := 8 + |bucket|;
    S3FirstAfterBucket(bucket, regionPart, key);
    HostSeparators(bucket, regionPart);
    assert u[|h| - 1] == '/';
    forall j | s0 <= j < |h| - 1 ensures u[j] != '/' {
      assert u[j] == h[j];
    }
    assert AdminService.HostSlash(u, |h| - 1);
    forall b | AdminService.HostSlash(u, b) ensures b == |h| - 1 {
      var s :| FirstOccurrence(u, ".s3", s) && s <= b < |u| && u[b] == '/'
        && forall j :: s <= j < b ==> u[j] != '/';
      assert s == s0;
      assert b < |h| ==> u[b] == h[b];
      assert b == |h| - 1;
    }
  }

  /** A key followed by the end or a '?' is the only key that can be read up to the query. */
  lemma KeyUpToQueryIsKey(prefix: string, key: string, query: string, k: string)
    requires '?' !in key && (query == [] || query[0] == '?')
    requires CourseService.KeyUpToQuery(prefix + key + query, |prefix|, k)
    ensures k == key
  {
    var url := prefix + key + query;
    var p := |prefix|;
    forall i | 0 <= i < |key| ensures url[p + i] == key[i] != '?' {}
    forall i | 0 <= i < |k| ensures url[p + i] == k[i] {}
    assert p + |key| < |url| ==> url[p + |key|] == query[0] == '?';
    assert |k| == |key|;
  }

  /** Where the marker first occurs in a non-blank URL, `extractS3KeyFromUrl` reads the key after it. */
  lemma CourseServiceReadsAfterMarker(url: string, b: int)
    requires !IsBlank(url) && FirstOccurrence(url, CourseService.AwsHostMarker, b)
    ensures var r := CourseService.ExtractS3KeyFromUrl(Some(url));
      r.Some? && CourseService.KeyUpToQuery(url, b + |CourseService.AwsHostMarker|, r.value)
  {
    assert Contains(url, CourseService.AwsHostMarker);
  }

  /** A key behind a first marker, followed by the end or a query, is what `extractS3KeyFromUrl` returns. */
  lemma CourseServiceReadsKey(prefix: string, key: string, query: string)
    requires |prefix| >= |CourseService.AwsHostMarker| && !IsBlank(prefix + key + query)
    requires FirstOccurrence(prefix + key + query, CourseService.AwsHostMarker, |prefix| - |CourseService.AwsHostMarker|)
    requires '?' !in key && (query == [] || query[0] == '?')
    ensures CourseService.ExtractS3KeyFromUrl(Some(prefix + key + query)) == Some(key)
  {
    var url := prefix + key + query;
    CourseServiceReadsAfterMarker(url, |prefix| - |CourseService.AwsHostMarker|);
    KeyUpToQueryIsKey(prefix, key, query, CourseService.ExtractS3KeyFromUrl(Some(url)).value);
  }

  /** `extractS3KeyFromUrl` recovers the key of a well-formed link, with or without a query. */
  lemma CourseServiceRecoversKey(bucket: string, regionPart: string, key: string, query: string)
    requires WellFormed(bucket, regionPart, key, query)
    ensures CourseService.ExtractS3KeyFromUrl(Some(VirtualHostedUrl(bucket, regionPart, key, query))) == Some(key)
  {
    var h := Host(bucket, regionPart);
    assert h + key + query == h + (key + query);
    MarkerFirstAtHostEnd(bucket, regionPart, key + query);
    assert (h + key + query)[0] == 'h' && !IsWhitespace('h');
    CourseServiceReadsKey(h, key, query);
  }

  /** `extractObjectKeyFromUrl` recovers a non-empty key of a well-formed link. */
  lemma AdminServiceRecoversKey(bucket: string, regionPart: string, key: string, query: string)
    requires WellFormed(bucket, regionPart, key, query) && key != []
    ensures AdminService.ExtractObjectKeyFromUrl(Some(VirtualHostedUrl(bucket, regionPart, key, query))) == Some(key)
  {
    var h := Host(bucket, regionPart);
    var url := VirtualHostedUrl(bucket, regionPart, key, query);
    var u := h + key;
    BeforeQueryOfLink(bucket, regionPart, key, query);
    HostSlashIsHostEnd(bucket, regionPart, key);
    assert url[0] == 'h' && !IsWhitespace('h');
    assert AdminService.HostSlash(u, |h| - 1) && |h| - 1 < |u| - 1;
    var r := AdminService.ExtractObjectKeyFromUrl(Some(url));
    var b :| AdminService.HostSlash(u, b) && r.value == u[b + 1..];
    assert u[|h|..] == key;
  }

  /** On well-formed links with a non-empty key, the two extractors agree. */
  lemma ExtractorsAgree(bucket: string, regionPart: string, key: string, query: string)
    requires WellFormed(bucket, regionPart, key, query) && key != []
    ensures var url := Some(VirtualHostedUrl(bucket, regionPart, key, query));
      CourseService.ExtractS3KeyFromUrl(url) == AdminService.ExtractObjectKeyFromUrl(url) == Some(key)
  {
    CourseServiceRecoversKey(bucket, regionPart, key, query);
    AdminServiceRecoversKey(bucket, regionPart, key, query);
  }

  /**
   * A link to the bucket root (empty key): the course side yields the empty
   * key, the admin side yields null, so the cleanup skips it.
   */
  lemma ExtractorsDisagreeOnEmptyKey(bucket: string, regionPart: string, query: string)
    requires WellFormed(bucket, regionPart, [], query)
    ensures var url := Some(VirtualHostedUrl(bucket, regionPart, [], query));
      CourseService.ExtractS3KeyFromUrl(url) == Some([]) && AdminService.ExtractObjectKeyFromUrl(url) == None
  {
    var h := Host(bucket, regionPart);
    var url := VirtualHostedUrl(bucket, regionPart, [], query);
    CourseServiceRecoversKey(bucket, regionPart, [], query);
    BeforeQueryOfLink(bucket, regionPart, [], query);
    HostSlashIsHostEnd(bucket, regionPart, []);
    assert h + [] == h;
    assert url[0] == 'h' && !IsWhitespace('h');
  }
}
