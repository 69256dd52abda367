/** The S3 server in its own form: an object that updates its nested maps in place, proved against
    the state machine of `S3Store`. */
module S3Service {
  import opened ByteStrings
  import opened S3Store
  import S3Range

  lemma WriteTwice(st: Storage, bucket: string, key: string, first: Object, second: Object)
    requires bucket in st
    ensures Write(Write(st, bucket, key, first), bucket, key, second) == Write(st, bucket, key, second)
  {
    assert st[bucket][key := first][key := second] == st[bucket][key := second];
  }

  class Service {
    var storage: Storage

    constructor ()
      ensures storage == map[]
    {
      storage := map[];
    }

    method CreateBucket(name: string)
      requires name !in storage
      modifies this
      ensures Done(storage, Ok) == Step(old(storage), Request.CreateBucket(name))
    {
      storage := storage[name := map[]];
    }

    method CreateMultipartUpload(bucket: string, key: string, drawn: string) returns (reply: Reply)
      requires Legal(storage, CreateUpload(bucket, key, drawn))
      modifies this
      ensures Done(storage, reply) == Step(old(storage), CreateUpload(bucket, key, drawn))
    {
      if bucket !in storage { return NoSuchBucket; }
      ghost var created := OrNew(storage[bucket], key);
      WriteTwice(storage, bucket, key, NewObject, created.(uploads := created.uploads[drawn := []]));
      if key !in storage[bucket] {
        storage := Write(storage, bucket, key, NewObject);
      }
      var o := storage[bucket][key];
      storage := Write(storage, bucket, key, o.(uploads := o.uploads[drawn := []]));
      reply := UploadId(drawn);
    }

    method UploadPart(bucket: string, key: string, upload: string, number: int, body: Bytes, drawn: string)
      returns (reply: Reply)
      modifies this
      ensures Done(storage, reply) == Step(old(storage), Request.UploadPart(bucket, key, upload, number, body, drawn))
    {
      if bucket !in storage { return NoSuchBucket; }
      if key !in storage[bucket] { return NoSuchKey; }
      var o := storage[bucket][key];
      if upload !in o.uploads { return NoSuchUpload; }
      var parts := o.uploads[upload];
      parts := parts + [Part(number, body, drawn)];
      storage := Write(storage, bucket, key, o.(uploads := o.uploads[upload := parts]));
      reply := ETag(drawn);
    }

    /** The body of the first part that a line names. */
    method FindBody(parts: seq<Part>, line: Listed) returns (body: Bytes)
      ensures body == BodyFor(parts, line)
    {
      body := [];
      var i := 0;
      while i < |parts|
        invariant 0 <= i <= |parts| && body == []
        invariant BodyFor(parts, line) == BodyFor(parts[i..], line)
      {
        if Fits(parts[i], line) {
          body := parts[i].body;
          break;
        }
        assert parts[i..][1..] == parts[i + 1..];
        i := i + 1;
      }
    }

    method CompleteMultipartUpload(bucket: string, key: string, upload: string, list: Option<seq<Listed>>)
      returns (reply: Reply)
      modifies this
      ensures Done(storage, reply) == Step(old(storage), CompleteUpload(bucket, key, upload, list))
    {
      if bucket !in storage { return NoSuchBucket; }
      if key !in storage[bucket] { return NoSuchKey; }
      var o := storage[bucket][key];
      if upload !in o.uploads { return NoSuchUpload; }
      var parts := o.uploads[upload];
      o := o.(uploads := o.uploads - {upload});
      if list.Some? {
        var body: Bytes := [];
        var lines := SortByNumber(list.value);
        var i := 0;
        while i < |lines|
          invariant 0 <= i <= |lines| && storage == old(storage) && body == Assemble(parts, lines[..i])
        {
          assert lines[..i + 1][..i] == lines[..i];
          var piece := FindBody(parts, lines[i]);
          body := body + piece;
          i := i + 1;
        }
        assert lines[..i] == lines;
        o := o.(body := body, completed := true);
      }
      storage := Write(storage, bucket, key, o);
      reply := Ok;
    }

    method AbortMultipartUpload(bucket: string, key: string, upload: string) returns (reply: Reply)
      modifies this
      ensures Done(storage, reply) == Step(old(storage), AbortUpload(bucket, key, upload))
    {
      if bucket !in storage { return NoSuchBucket; }
      if key !in storage[bucket] { return NoSuchKey; }
      var o := storage[bucket][key];
      if upload !in o.uploads { return NoSuchUpload; }
      storage := Write(storage, bucket, key, o.(uploads := o.uploads - {upload}));
      reply := Ok;
    }

    method GetObject(bucket: string, key: string, range: Option<string>, part: Option<int>) returns (reply: Reply)
      requires Step(storage, Request.GetObject(bucket, key, range, part)).Done?
      ensures Done(storage, reply) == Step(storage, Request.GetObject(bucket, key, range, part))
    {
      if bucket !in storage { return NoSuchBucket; }
      if key !in storage[bucket] { return NoSuchKey; }
      if !storage[bucket][key].completed { return NoSuchKey; }
      var body := storage[bucket][key].body;
      if range.Some? {
        match S3Range.ReadRange(body, range.value)
        case Selected(bytes) => reply := Body(bytes);
        case InvalidRange => reply := Reply.InvalidRange;
        case UnsupportedUnit => reply := Reply.UnsupportedUnit;
      } else if part.Some? {
        reply := InvalidPart;
      } else {
        reply := Body(body);
      }
    }

    method PutObject(bucket: string, key: string, body: Bytes) returns (reply: Reply)
      modifies this
      ensures Done(storage, reply) == Step(old(storage), Request.PutObject(bucket, key, body))
    {
      if bucket !in storage { return NoSuchBucket; }
      ghost var o := OrNew(storage[bucket], key);
      WriteTwice(storage, bucket, key, NewObject, o.(body := body));
      WriteTwice(storage, bucket, key, o.(body := body), o.(body := body, completed := true));
      if key !in storage[bucket] {
        storage := Write(storage, bucket, key, NewObject);
      }
      storage := Write(storage, bucket, key, storage[bucket][key].(body := body));
      storage := Write(storage, bucket, key, storage[bucket][key].(completed := true));
      reply := Ok;
    }

    /** Drops a completed entry, or only its content while uploads are in progress. */
    method Drop(bucket: string, key: string)
      requires bucket in storage
      modifies this
      ensures storage == old(storage)[bucket := DeleteKey(old(storage)[bucket], key)]
    {
      assert storage[bucket := storage[bucket]] == storage;
      if key in storage[bucket] && storage[bucket][key].completed {
        if storage[bucket][key].uploads == map[] {
          storage := storage[bucket := storage[bucket] - {key}];
        } else {
          ghost var o := storage[bucket][key].(completed := false);
          WriteTwice(storage, bucket, key, o, o.(body := []));
          storage := Write(storage, bucket, key, storage[bucket][key].(completed := false));
          storage := Write(storage, bucket, key, storage[bucket][key].(body := []));
        }
      }
    }

    method DeleteObject(bucket: string, key: string) returns (reply: Reply)
      modifies this
      ensures Done(storage, reply) == Step(old(storage), Request.DeleteObject(bucket, key))
    {
      if bucket !in storage { return NoSuchBucket; }
      Drop(bucket, key);
      reply := Ok;
    }

    method DeleteObjects(bucket: string, keys: seq<string>) returns (reply: Reply)
      modifies this
      ensures Done(storage, reply) == Step(old(storage), Request.DeleteObjects(bucket, keys))
    {
      if bucket !in storage { return NoSuchBucket; }
      var i := 0;
      while i < |keys|
        invariant 0 <= i <= |keys| && bucket in storage
        invariant storage == old(storage)[bucket := DeleteKeys(old(storage)[bucket], keys[..i])]
      {
        assert keys[..i + 1][..i] == keys[..i];
        Drop(bucket, keys[i]);
        i := i + 1;
      }
      assert keys[..i] == keys;
      reply := Deleted(keys);
    }
  }
}
