/** The simulated S3 store: objects with in-progress multipart uploads kept in the same entry,
    hidden behind a `completed` flag.  Every request is one step.  Upload ids and e-tags, which the
    server draws at random, are parameters of the requests. */
module S3Store {
  import opened ByteStrings
  import S3Range

  datatype Part = Part(number: int, body: Bytes, tag: string)

  datatype Object = Object(body: Bytes, completed: bool, uploads: map<string, seq<Part>>)

  type Bucket = map<string, Object>

  type Storage = map<string, Bucket>

  const NewObject := Object([], false, map[])

  /** One line of a completion request; both fields are optional. */
  datatype Listed = Listed(number: Option<int>, tag: Option<string>)

  datatype Request =
    | CreateBucket(bucket: string)
    | CreateUpload(bucket: string, key: string, drawn: string)
    | UploadPart(bucket: string, key: string, upload: string, number: int, body: Bytes, drawn: string)
    | CompleteUpload(bucket: string, key: string, upload: string, list: Option<seq<Listed>>)
    | AbortUpload(bucket: string, key: string, upload: string)
    | GetObject(bucket: string, key: string, range: Option<string>, part: Option<int>)
    | PutObject(bucket: string, key: string, body: Bytes)
    | DeleteObject(bucket: string, key: string)
    | DeleteObjects(bucket: string, keys: seq<string>)

  datatype Reply =
    | Ok
    | UploadId(id: string)
    | ETag(tag: string)
    | Body(body: Bytes)
    | Deleted(keys: seq<string>)
    | NoSuchBucket
    | NoSuchKey
    | NoSuchUpload
    | InvalidRange
    | UnsupportedUnit
    | InvalidPart

  datatype Outcome = Done(storage: Storage, reply: Reply) | Panic

  function Write(st: Storage, bucket: string, key: string, o: Object): Storage
    requires bucket in st
  {
    st[bucket := st[bucket][key := o]]
  }

  function OrNew(b: Bucket, key: string): Object {
    if key in b then b[key] else NewObject
  }

  // ---- completing an upload --------------------------------------------------------------

  /** None sorts before every number. */
  predicate NumberLeq(a: Listed, b: Listed) {
    a.number.None? || (b.number.Some? && a.number.value <= b.number.value)
  }

  /** Inserts after the elements that are not greater, so that sorting is stable. */
  function InsertSorted(sorted: seq<Listed>, x: Listed): seq<Listed> {
    if sorted == [] || NumberLeq(sorted[|sorted| - 1], x) then sorted + [x]
    else InsertSorted(sorted[..|sorted| - 1], x) + [sorted[|sorted| - 1]]
  }

  function SortByNumber(list: seq<Listed>): seq<Listed> {
    if list == [] then [] else InsertSorted(SortByNumber(list[..|list| - 1]), list[|list| - 1])
  }

  predicate Fits(p: Part, c: Listed) {
    && p.number == (if c.number.Some? then c.number.value else 0)
    && (c.tag.Some? ==> c.tag.value == p.tag)
  }

  /** The body of the first uploaded part that a line names; nothing if it names none. */
  function BodyFor(parts: seq<Part>, c: Listed): Bytes {
    if parts == [] then [] else if Fits(parts[0], c) then parts[0].body else BodyFor(parts[1..], c)
  }

  function Assemble(parts: seq<Part>, lines: seq<Listed>): Bytes {
    if lines == [] then [] else Assemble(parts, lines[..|lines| - 1]) + BodyFor(parts, lines[|lines| - 1])
  }

  // ---- deleting --------------------------------------------------------------------------

  /** Removes the entry, or only its content when uploads are in progress. */
  function DeleteKey(b: Bucket, key: string): Bucket {
    if key !in b || !b[key].completed then b
    else if b[key].uploads == map[] then b - {key}
    else b[key := b[key].(completed := false, body := [])]
  }

  function DeleteKeys(b: Bucket, keys: seq<string>): Bucket {
    if keys == [] then b else DeleteKey(DeleteKeys(b, keys[..|keys| - 1]), keys[|keys| - 1])
  }

  // ---- reading ---------------------------------------------------------------------------

  /** The whole body or a range of it; reading by part number is not implemented. */
  function Read(st: Storage, body: Bytes, range: Option<string>, part: Option<int>): Outcome {
    if range.Some? then
      match S3Range.ReadRange(body, range.value)
      case Selected(bytes) => Done(st, Body(bytes))
      case InvalidRange => Done(st, InvalidRange)
      case UnsupportedUnit => Done(st, UnsupportedUnit)
      case OutOfBounds => Panic
    else if part.Some? then
      if part.value < 0 || part.value >= |body| then Done(st, InvalidPart) else Panic
    else Done(st, Body(body))
  }

  // ---- requests --------------------------------------------------------------------------

  function Step(st: Storage, r: Request): Outcome {
    if r.CreateBucket? then
      if r.bucket in st then Panic else Done(st[r.bucket := map[]], Ok)
    else if r.bucket !in st then Done(st, NoSuchBucket)
    else
      var b := st[r.bucket];
      match r
      case CreateUpload(bucket, key, drawn) =>
        var o := OrNew(b, key);
        Done(Write(st, bucket, key, o.(uploads := o.uploads[drawn := []])), UploadId(drawn))
      case UploadPart(bucket, key, upload, number, body, drawn) =>
        if key !in b then Done(st, NoSuchKey)
        else if upload !in b[key].uploads then Done(st, NoSuchUpload)
        else
          var o := b[key];
          var parts := o.uploads[upload] + [Part(number, body, drawn)];
          Done(Write(st, bucket, key, o.(uploads := o.uploads[upload := parts])), ETag(drawn))
      case CompleteUpload(bucket, key, upload, list) =>
        if key !in b then Done(st, NoSuchKey)
        else if upload !in b[key].uploads then Done(st, NoSuchUpload)
        else
          var parts := b[key].uploads[upload];
          var o := b[key].(uploads := b[key].uploads - {upload});
          var o' := if list.Some? then o.(body := Assemble(parts, SortByNumber(list.value)), completed := true) else o;
          Done(Write(st, bucket, key, o'), Ok)
      case AbortUpload(bucket, key, upload) =>
        if key !in b then Done(st, NoSuchKey)
        else if upload !in b[key].uploads then Done(st, NoSuchUpload)
        else Done(Write(st, bucket, key, b[key].(uploads := b[key].uploads - {upload})), Ok)
      case GetObject(bucket, key, range, part) =>
        if key !in b || !b[key].completed then Done(st, NoSuchKey) else Read(st, b[key].body, range, part)
      case PutObject(bucket, key, body) =>
        Done(Write(st, bucket, key, OrNew(b, key).(body := body, completed := true)), Ok)
      case DeleteObject(bucket, key) => Done(st[bucket := DeleteKey(b, key)], Ok)
      case DeleteObjects(bucket, keys) => Done(st[bucket := DeleteKeys(b, keys)], Deleted(keys))
  }

  /** A drawn upload id is new to its object. */
  predicate Legal(st: Storage, r: Request) {
    r.CreateUpload? && r.bucket in st && r.key in st[r.bucket] ==> r.drawn !in st[r.bucket][r.key].uploads
  }

  /** A run; None once a request panics or a drawn id is not new. */
  function Run(st: Storage, rs: seq<Request>): Option<Storage> {
    if rs == [] then Some(st)
    else
      match Run(st, rs[..|rs| - 1])
      case None => None
      case Some(mid) =>
        var r := rs[|rs| - 1];
        if Legal(mid, r) && Step(mid, r).Done? then Some(Step(mid, r).storage) else None
  }

  // ---- refinement of a plain map ---------------------------------------------------------

  /** What a reader sees. */
  function Peek(st: Storage, bucket: string, key: string): Option<Bytes> {
    if bucket in st && key in st[bucket] && st[bucket][key].completed then Some(st[bucket][key].body) else None
  }

  /** A write of the plain map: a body stored or a key removed. */
  datatype Change = Change(bucket: string, key: string, body: Option<Bytes>)

  function Removals(bucket: string, keys: seq<string>): seq<Change> {
    seq(|keys|, i requires 0 <= i < |keys| => Change(bucket, keys[i], None))
  }

  /** The plain-map writes a request stands for: only put, completion and deletion have any. */
  function ChangesOf(st: Storage, r: Request): seq<Change> {
    if r.bucket !in st then []
    else
      match r
      case PutObject(bucket, key, body) => [Change(bucket, key, Some(body))]
      case DeleteObject(bucket, key) => [Change(bucket, key, None)]
      case DeleteObjects(bucket, keys) => Removals(bucket, keys)
      case CompleteUpload(bucket, key, upload, list) =>
        if key in st[bucket] && upload in st[bucket][key].uploads && list.Some?
        then [Change(bucket, key, Some(Assemble(st[bucket][key].uploads[upload], SortByNumber(list.value))))]
        else []
      case _ => []
  }

  /** What a plain map holds at a place after some writes, given what it held before. */
  function PlainGet(before: Option<Bytes>, changes: seq<Change>, bucket: string, key: string): Option<Bytes> {
    if changes == [] then before
    else
      var c := changes[|changes| - 1];
      if c.bucket == bucket && c.key == key then c.body else PlainGet(before, changes[..|changes| - 1], bucket, key)
  }

  lemma {:induction false} DeleteKeysRefines(st: Storage, bucket: string, keys: seq<string>, b: string, k: string)
    requires bucket in st
    ensures Peek(st[bucket := DeleteKeys(st[bucket], keys)], b, k) ==
      PlainGet(Peek(st, b, k), Removals(bucket, keys), b, k)
  {
    if keys == [] {
      assert st[bucket := st[bucket]] == st;
    } else {
      var n := |keys| - 1;
      DeleteKeysRefines(st, bucket, keys[..n], b, k);
      assert Removals(bucket, keys)[..n] == Removals(bucket, keys[..n]);
    }
  }

  /** One request: what a reader sees changes exactly as a plain map does under its writes. */
  lemma StepRefines(st: Storage, r: Request, b: string, k: string)
    requires Step(st, r).Done?
    ensures Peek(Step(st, r).storage, b, k) == PlainGet(Peek(st, b, k), ChangesOf(st, r), b, k)
  {
    if r.DeleteObjects? && r.bucket in st { DeleteKeysRefines(st, r.bucket, r.keys, b, k); }
  }

  function ChangesOfRun(st: Storage, rs: seq<Request>): seq<Change> {
    if rs == [] then []
    else
      ChangesOfRun(st, rs[..|rs| - 1]) +
      match Run(st, rs[..|rs| - 1]) { case Some(mid) => ChangesOf(mid, rs[|rs| - 1]) case None => [] }
  }

  lemma {:induction false} PlainGetConcat(before: Option<Bytes>, x: seq<Change>, y: seq<Change>, b: string, k: string)
    ensures PlainGet(before, x + y, b, k) == PlainGet(PlainGet(before, x, b, k), y, b, k)
  {
    if y == [] {
      assert x + y == x;
    } else {
      assert (x + y)[..|x + y| - 1] == x + y[..|y| - 1];
      PlainGetConcat(before, x, y[..|y| - 1], b, k);
    }
  }

  /** Every run: a reader sees what the last write of a plain map left, whatever uploads were
      created, filled, aborted or completed under the same keys. */
  lemma {:induction false} RunRefines(st: Storage, rs: seq<Request>, b: string, k: string)
    requires Run(st, rs).Some?
    ensures Peek(Run(st, rs).value, b, k) == PlainGet(Peek(st, b, k), ChangesOfRun(st, rs), b, k)
  {
    if rs != [] {
      var n := |rs| - 1;
      RunRefines(st, rs[..n], b, k);
      var mid := Run(st, rs[..n]).value;
      StepRefines(mid, rs[n], b, k);
      PlainGetConcat(Peek(st, b, k), ChangesOfRun(st, rs[..n]), ChangesOf(mid, rs[n]), b, k);
    }
  }

  /** A read answers with the visible body, or with the bytes of it that a spelled-out range names; one by part
      number answers at all only where that number is outside the body, and with an error. */
  lemma GetIsPeek(st: Storage, b: string, k: string, first: Option<nat>, last: Option<nat>, part: int)
    requires b in st && S3Range.Fits(first) && S3Range.Fits(last)
    ensures var seen := Peek(st, b, k);
      var whole := Step(st, GetObject(b, k, None, None));
      var ranged := Step(st, GetObject(b, k, Some(S3Range.Spell(first, last)), None));
      var numbered := Step(st, GetObject(b, k, None, Some(part)));
      if seen.None? then whole == ranged == numbered == Done(st, NoSuchKey)
      else
        && numbered == (if 0 <= part < |seen.value| then Panic else Done(st, InvalidPart))
        && whole == Done(st, Body(seen.value))
        && ranged == match S3Range.Slice(seen.value, first, last)
                     case Selected(bytes) => Done(st, Body(bytes))
                     case _ => Panic
  {
    if Peek(st, b, k).Some? { S3Range.RangeRoundTrip(Peek(st, b, k).value, first, last); }
  }

  /** An entry that is not completed has an empty body. */
  predicate Hidden(st: Storage) {
    forall b, k :: b in st && k in st[b] && !st[b][k].completed ==> st[b][k].body == []
  }

  lemma {:induction false} DeleteKeysHidden(b: Bucket, keys: seq<string>)
    requires forall k :: k in b && !b[k].completed ==> b[k].body == []
    ensures forall k :: k in DeleteKeys(b, keys) && !DeleteKeys(b, keys)[k].completed ==>
      DeleteKeys(b, keys)[k].body == []
  {
    if keys != [] { DeleteKeysHidden(b, keys[..|keys| - 1]); }
  }

  lemma {:induction false} RunHidden(st: Storage, rs: seq<Request>)
    requires Hidden(st) && Run(st, rs).Some?
    ensures Hidden(Run(st, rs).value)
  {
    if rs != [] {
      var n := |rs| - 1;
      RunHidden(st, rs[..n]);
      var mid := Run(st, rs[..n]).value;
      if rs[n].DeleteObjects? && rs[n].bucket in mid { DeleteKeysHidden(mid[rs[n].bucket], rs[n].keys); }
    }
  }

  function OneByOne(bucket: string, keys: seq<string>): seq<Request> {
    seq(|keys|, i requires 0 <= i < |keys| => DeleteObject(bucket, keys[i]))
  }

  /** A batch delete equals deleting its keys one by one, and reports them all. */
  lemma {:induction false} BatchIsOneByOne(st: Storage, bucket: string, keys: seq<string>)
    requires bucket in st
    ensures Run(st, OneByOne(bucket, keys)) == Some(Step(st, DeleteObjects(bucket, keys)).storage)
    ensures Step(st, DeleteObjects(bucket, keys)).reply == Deleted(keys)
  {
    if keys == [] {
      assert st[bucket := st[bucket]] == st;
    } else {
      var n := |keys| - 1;
      BatchIsOneByOne(st, bucket, keys[..n]);
      assert OneByOne(bucket, keys)[..n] == OneByOne(bucket, keys[..n]);
      var mid := st[bucket := DeleteKeys(st[bucket], keys[..n])];
      assert Step(mid, DeleteObject(bucket, keys[n])).storage == st[bucket := DeleteKeys(st[bucket], keys)];
    }
  }
}
