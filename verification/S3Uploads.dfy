/** How uploads begin and end, told by the answers to later requests: an upload that was aborted or
    completed is forgotten for good, and everything else is left alone. */
module S3Uploads {
  import opened ByteStrings
  import opened S3Store
  import opened S3Multipart

  /** The request works on this upload. */
  predicate Names(r: Request, bucket: string, key: string, upload: string) {
    (r.UploadPart? || r.CompleteUpload? || r.AbortUpload?) && r.bucket == bucket && r.key == key && r.upload == upload
  }

  /** Every upload but one has the parts it had. */
  ghost predicate OtherUploadsKept(st: Storage, st': Storage, bucket: string, key: string, upload: string) {
    forall b, k, u :: (b, k, u) != (bucket, key, upload) ==> PartsAt(st', b, k, u) == PartsAt(st, b, k, u)
  }

  ghost predicate ReadersSeeTheSame(st: Storage, st': Storage) {
    forall b, k :: Peek(st', b, k) == Peek(st, b, k)
  }

  /** The answer when an upload is not there. */
  function Refusal(st: Storage, bucket: string, key: string): Reply {
    if bucket !in st then NoSuchBucket else if key !in st[bucket] then NoSuchKey else NoSuchUpload
  }

  /** A request on an upload that is not there is refused and changes nothing; otherwise it succeeds. */
  lemma RefusedIff(st: Storage, r: Request, bucket: string, key: string, upload: string)
    requires Names(r, bucket, key, upload)
    ensures Step(st, r).Done?
    ensures if PartsAt(st, bucket, key, upload).None? then Step(st, r) == Done(st, Refusal(st, bucket, key))
            else Step(st, r).reply == if r.UploadPart? then ETag(r.drawn) else Ok
  {
  }

  /** An upload begins without parts, under the id drawn, and nobody sees it. */
  lemma CreateBegins(st: Storage, bucket: string, key: string, drawn: string)
    requires Legal(st, CreateUpload(bucket, key, drawn))
    ensures var o := Step(st, CreateUpload(bucket, key, drawn));
      if bucket !in st then o == Done(st, NoSuchBucket)
      else
        && o == Done(o.storage, UploadId(drawn))
        && PartsAt(st, bucket, key, drawn).None? && PartsAt(o.storage, bucket, key, drawn) == Some([])
        && OtherUploadsKept(st, o.storage, bucket, key, drawn) && ReadersSeeTheSame(st, o.storage)
  {
    forall b, k ensures Step(st, CreateUpload(bucket, key, drawn)).Done? ==>
      Peek(Step(st, CreateUpload(bucket, key, drawn)).storage, b, k) == Peek(st, b, k)
    {
      StepRefines(st, CreateUpload(bucket, key, drawn), b, k);
    }
  }

  /** An abort that is answered `Ok` found the upload and has forgotten it; every other upload keeps its
      parts, and readers see what they saw. */
  lemma AbortForgets(st: Storage, bucket: string, key: string, upload: string)
    ensures var o := Step(st, AbortUpload(bucket, key, upload));
      && o.Done? && (o.reply == Ok <==> PartsAt(st, bucket, key, upload).Some?)
      && PartsAt(o.storage, bucket, key, upload).None?
      && OtherUploadsKept(st, o.storage, bucket, key, upload) && ReadersSeeTheSame(st, o.storage)
  {
    forall b, k ensures Peek(Step(st, AbortUpload(bucket, key, upload)).storage, b, k) == Peek(st, b, k) {
      StepRefines(st, AbortUpload(bucket, key, upload), b, k);
    }
  }

  /** So does a completion, which readers see only if it lists parts. */
  lemma CompletionForgets(st: Storage, bucket: string, key: string, upload: string, list: Option<seq<Listed>>)
    ensures var o := Step(st, CompleteUpload(bucket, key, upload, list));
      && o.Done? && (o.reply == Ok <==> PartsAt(st, bucket, key, upload).Some?)
      && PartsAt(o.storage, bucket, key, upload).None?
      && OtherUploadsKept(st, o.storage, bucket, key, upload)
      && (list.None? ==> ReadersSeeTheSame(st, o.storage))
  {
    var r := CompleteUpload(bucket, key, upload, list);
    forall b, k ensures list.None? ==> Peek(Step(st, r).storage, b, k) == Peek(st, b, k) {
      StepRefines(st, r, b, k);
    }
  }

  /** No request of the run begins an upload of the key under this id. */
  predicate NotDrawn(rs: seq<Request>, bucket: string, key: string, upload: string) {
    forall r :: r in rs ==> r != CreateUpload(bucket, key, upload)
  }

  lemma {:induction false} DeleteKeysBeginNone(b: Bucket, keys: seq<string>, k: string, upload: string)
    requires k in DeleteKeys(b, keys) && upload in DeleteKeys(b, keys)[k].uploads
    ensures k in b && upload in b[k].uploads
  {
    if keys != [] { DeleteKeysBeginNone(b, keys[..|keys| - 1], k, upload); }
  }

  lemma ForgottenNext(st: Storage, r: Request, bucket: string, key: string, upload: string)
    requires PartsAt(st, bucket, key, upload).None? && r != CreateUpload(bucket, key, upload) && Step(st, r).Done?
    ensures PartsAt(Step(st, r).storage, bucket, key, upload).None?
  {
    if r.bucket == bucket && r.bucket in st && r.DeleteObjects? {
      var b := st[bucket];
      if key in DeleteKeys(b, r.keys) && upload in DeleteKeys(b, r.keys)[key].uploads {
        DeleteKeysBeginNone(b, r.keys, key, upload);
      }
    }
  }

  /** A forgotten upload stays forgotten, through any run that does not draw its id again: no part is taken
      for it any more, and it can be neither completed nor aborted. */
  lemma {:induction false} ForgottenForGood(st: Storage, rs: seq<Request>, r: Request, bucket: string, key: string,
                                            upload: string)
    requires PartsAt(st, bucket, key, upload).None? && NotDrawn(rs, bucket, key, upload) && Run(st, rs).Some?
    requires Names(r, bucket, key, upload)
    ensures var t := Run(st, rs).value;
      PartsAt(t, bucket, key, upload).None? && Step(t, r) == Done(t, Refusal(t, bucket, key))
  {
    if rs != [] {
      var n := |rs| - 1;
      assert rs[n] in rs && forall x :: x in rs[..n] ==> x in rs;
      ForgottenForGood(st, rs[..n], r, bucket, key, upload);
      ForgottenNext(Run(st, rs[..n]).value, rs[n], bucket, key, upload);
    }
    RefusedIff(Run(st, rs).value, r, bucket, key, upload);
  }

  /** In particular an aborted one: whatever was uploaded to it is lost. */
  lemma {:induction false} AbortedForGood(st: Storage, rs: seq<Request>, r: Request, bucket: string, key: string,
                                          upload: string)
    requires var t := Step(st, AbortUpload(bucket, key, upload)).storage; Run(t, rs).Some?
    requires NotDrawn(rs, bucket, key, upload) && Names(r, bucket, key, upload)
    ensures var t := Run(Step(st, AbortUpload(bucket, key, upload)).storage, rs).value;
      Step(t, r) == Done(t, Refusal(t, bucket, key))
  {
    AbortForgets(st, bucket, key, upload);
    ForgottenForGood(Step(st, AbortUpload(bucket, key, upload)).storage, rs, r, bucket, key, upload);
  }

  /** Whether the key has any upload in progress. */
  ghost predicate InProgress(st: Storage, bucket: string, key: string) {
    exists u :: PartsAt(st, bucket, key, u).Some?
  }

  /** Deleting a key that readers see drops its entry for good, unless uploads are in progress under it;
      then these go on.  Deleting one that nobody sees changes nothing. */
  lemma DeleteDropsIff(st: Storage, bucket: string, key: string)
    requires bucket in st
    ensures var t := Step(st, DeleteObject(bucket, key)).storage;
      && (Peek(st, bucket, key).None? ==> t == st)
      && (Peek(st, bucket, key).Some? ==>
            (Refusal(t, bucket, key) == NoSuchKey <==> !InProgress(st, bucket, key)) && Peek(t, bucket, key).None?)
      && forall u :: PartsAt(t, bucket, key, u) == PartsAt(st, bucket, key, u)
  {
    assert st[bucket := st[bucket]] == st;
    if key in st[bucket] {
      var uploads := st[bucket][key].uploads;
      if uploads != map[] {
        var u :| u in uploads;
        assert PartsAt(st, bucket, key, u).Some?;
      }
    }
  }

  // ---- buckets ---------------------------------------------------------------------------

  lemma StepKeepsBuckets(st: Storage, r: Request, bucket: string)
    requires Step(st, r).Done?
    ensures bucket in Step(st, r).storage <==> bucket in st || r == CreateBucket(bucket)
  {
  }

  /** A request is told that there is no such bucket exactly if there is none, and then changes nothing. */
  lemma NoSuchBucketIff(st: Storage, r: Request)
    requires !r.CreateBucket?
    ensures Step(st, r).Done? && Step(st, r).reply == NoSuchBucket <==> r.bucket !in st
    ensures r.bucket !in st ==> Step(st, r) == Done(st, NoSuchBucket)
  {
  }

  /** A new bucket is empty, and creating one that exists panics. */
  lemma CreateBucketAnswer(st: Storage, bucket: string, key: string)
    ensures var o := Step(st, CreateBucket(bucket));
      && (o.Panic? <==> bucket in st)
      && (o.Done? ==> o.reply == Ok && ReadersSeeTheSame(st, o.storage) && Refusal(o.storage, bucket, key) == NoSuchKey)
  {
  }

  lemma {:induction false} BucketsKept(st: Storage, rs: seq<Request>, bucket: string)
    requires Run(st, rs).Some?
    ensures bucket in Run(st, rs).value <==> bucket in st || CreateBucket(bucket) in rs
  {
    if rs != [] {
      var n := |rs| - 1;
      assert rs == rs[..n] + [rs[n]];
      BucketsKept(st, rs[..n], bucket);
      StepKeepsBuckets(Run(st, rs[..n]).value, rs[n], bucket);
    }
  }

  /** After any run a bucket is there exactly if it was before or was created in it: otherwise every request
      on it is told that there is none, and exactly if it is there creating it again panics. */
  lemma {:induction false} BucketsByHistory(st: Storage, rs: seq<Request>, r: Request)
    requires Run(st, rs).Some? && !r.CreateBucket?
    ensures var t := Run(st, rs).value; var there := r.bucket in st || CreateBucket(r.bucket) in rs;
      && (Step(t, CreateBucket(r.bucket)).Panic? <==> there)
      && (Step(t, r).Done? && Step(t, r).reply == NoSuchBucket <==> !there)
      && (!there ==> Step(t, r).storage == t)
  {
    var t := Run(st, rs).value;
    BucketsKept(st, rs, r.bucket);
    NoSuchBucketIff(t, r);
    CreateBucketAnswer(t, r.bucket, []);
  }

  // ---- uploads over whole runs -----------------------------------------------------------

  /** What the creations and endings of a run make of an upload: the last one decides.  Only in a bucket
      that is there does an upload begin. */
  predicate UploadAfter(st: Storage, rs: seq<Request>, bucket: string, key: string, upload: string) {
    if rs == [] then PartsAt(st, bucket, key, upload).Some?
    else
      var init, last := rs[..|rs| - 1], rs[|rs| - 1];
      if last == CreateUpload(bucket, key, upload) then bucket in st || CreateBucket(bucket) in init
      else UploadAfter(st, init, bucket, key, upload) && !Ends(last, bucket, key, upload)
  }

  lemma StepUploads(st: Storage, r: Request, bucket: string, key: string, upload: string)
    requires Step(st, r).Done? && Legal(st, r)
    ensures PartsAt(Step(st, r).storage, bucket, key, upload).Some? <==>
      if r == CreateUpload(bucket, key, upload) then bucket in st
      else PartsAt(st, bucket, key, upload).Some? && !Ends(r, bucket, key, upload)
  {
    if r == CreateUpload(bucket, key, upload) {
      CreateBegins(st, bucket, key, upload);
    } else if PartsAt(st, bucket, key, upload).None? {
      ForgottenNext(st, r, bucket, key, upload);
    } else if Ends(r, bucket, key, upload) {
      if r.AbortUpload? {
        AbortForgets(st, bucket, key, upload);
      } else {
        CompletionForgets(st, bucket, key, upload, r.list);
      }
    } else {
      StepKeepsParts(st, r, bucket, key, upload);
    }
  }

  lemma {:induction false} UploadsKept(st: Storage, rs: seq<Request>, bucket: string, key: string, upload: string)
    requires Run(st, rs).Some?
    ensures PartsAt(Run(st, rs).value, bucket, key, upload).Some? <==> UploadAfter(st, rs, bucket, key, upload)
  {
    if rs != [] {
      var n := |rs| - 1;
      UploadsKept(st, rs[..n], bucket, key, upload);
      BucketsKept(st, rs[..n], bucket);
      StepUploads(Run(st, rs[..n]).value, rs[n], bucket, key, upload);
    }
  }

  /** After any run a request on an upload succeeds exactly if the creations and endings of the run say that
      the upload is there; otherwise it is refused and changes nothing. */
  lemma {:induction false} UploadsByHistory(st: Storage, rs: seq<Request>, r: Request, bucket: string, key: string,
                                            upload: string)
    requires Run(st, rs).Some? && Names(r, bucket, key, upload)
    ensures Step(Run(st, rs).value, r).Done?
    ensures var t := Run(st, rs).value;
      if UploadAfter(st, rs, bucket, key, upload) then Step(t, r).reply == if r.UploadPart? then ETag(r.drawn) else Ok
      else Step(t, r) == Done(t, Refusal(t, bucket, key))
  {
    UploadsKept(st, rs, bucket, key, upload);
    RefusedIff(Run(st, rs).value, r, bucket, key, upload);
  }
}
