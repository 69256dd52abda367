/** Multipart uploads: parts survive whatever else happens to their key, and completion joins them
    by rising part number however they were uploaded and listed. */
module S3Multipart {
  import opened ByteStrings
  import opened S3Store

  // ---- sorting ---------------------------------------------------------------------------

  predicate Sorted(lines: seq<Listed>) {
    forall i, j :: 0 <= i < j < |lines| ==> NumberLeq(lines[i], lines[j])
  }

  lemma {:induction false} InsertSortedKeeps(sorted: seq<Listed>, x: Listed)
    ensures multiset(InsertSorted(sorted, x)) == multiset(sorted) + multiset{x}
    ensures forall y :: y in InsertSorted(sorted, x) ==> y in sorted || y == x
  {
    if sorted != [] && !NumberLeq(sorted[|sorted| - 1], x) {
      var n := |sorted| - 1;
      InsertSortedKeeps(sorted[..n], x);
      assert sorted == sorted[..n] + [sorted[n]];
    }
  }

  lemma {:induction false} InsertSortedExact(sorted: seq<Listed>, x: Listed)
    requires Sorted(sorted)
    ensures Sorted(InsertSorted(sorted, x))
  {
    if sorted != [] && !NumberLeq(sorted[|sorted| - 1], x) {
      var n := |sorted| - 1;
      InsertSortedExact(sorted[..n], x);
      InsertSortedKeeps(sorted[..n], x);
      var init := InsertSorted(sorted[..n], x);
      forall i | 0 <= i < |init| ensures NumberLeq(init[i], sorted[n]) {
        assert init[i] in init;
      }
    }
  }

  lemma {:induction false} SortExact(list: seq<Listed>)
    ensures Sorted(SortByNumber(list)) && multiset(SortByNumber(list)) == multiset(list)
  {
    if list != [] {
      SortExact(list[..|list| - 1]);
      InsertSortedExact(SortByNumber(list[..|list| - 1]), list[|list| - 1]);
      InsertSortedKeeps(SortByNumber(list[..|list| - 1]), list[|list| - 1]);
      assert list == list[..|list| - 1] + [list[|list| - 1]];
    }
  }

  /** The lines that give this number, or none, in their order. */
  function Giving(lines: seq<Listed>, number: Option<int>): seq<Listed> {
    if lines == [] then []
    else
      var last := lines[|lines| - 1];
      Giving(lines[..|lines| - 1], number) + if last.number == number then [last] else []
  }

  lemma {:induction false} InsertStable(sorted: seq<Listed>, x: Listed, number: Option<int>)
    requires Sorted(sorted)
    ensures Giving(InsertSorted(sorted, x), number) ==
      Giving(sorted, number) + if x.number == number then [x] else []
  {
    if sorted == [] || NumberLeq(sorted[|sorted| - 1], x) {
      assert (sorted + [x])[..|sorted|] == sorted;
    } else {
      var n := |sorted| - 1;
      InsertStable(sorted[..n], x, number);
      var init := InsertSorted(sorted[..n], x);
      assert (init + [sorted[n]])[..|init|] == init;
    }
  }

  /** Sorting is stable, and lines without a number come first. */
  lemma {:induction false} SortStable(list: seq<Listed>, number: Option<int>)
    ensures Giving(SortByNumber(list), number) == Giving(list, number)
    ensures var lines := SortByNumber(list); forall i, j :: 0 <= i < j < |lines| ==>
      (lines[j].number.None? ==> lines[i].number.None?)
      && (lines[i].number.Some? && lines[j].number.Some? ==> lines[i].number.value <= lines[j].number.value)
  {
    SortExact(list);
    if list != [] {
      SortExact(list[..|list| - 1]);
      SortStable(list[..|list| - 1], number);
      InsertStable(SortByNumber(list[..|list| - 1]), list[|list| - 1], number);
    }
  }

  /** Lines with strictly rising part numbers. */
  predicate Rising(lines: seq<Listed>) {
    && (forall i :: 0 <= i < |lines| ==> lines[i].number.Some?)
    && (forall i, j :: 0 <= i < j < |lines| ==> lines[i].number.value < lines[j].number.value)
  }

  /** The greatest line is the last of both. */
  lemma SameLast(a: seq<Listed>, b: seq<Listed>)
    requires Sorted(a) && Rising(b) && |a| == |b| > 0
    requires a[|a| - 1] in b && b[|b| - 1] in a
    ensures a[|a| - 1] == b[|b| - 1]
  {
    var n := |a| - 1;
    var i :| 0 <= i <= n && b[i] == a[n];
    var j :| 0 <= j <= n && a[j] == b[n];
    assert j < n ==> NumberLeq(a[j], a[n]);
  }

  lemma WithoutLast(a: seq<Listed>)
    requires a != []
    ensures multiset(a[..|a| - 1]) == multiset(a) - multiset{a[|a| - 1]}
  {
    assert a == a[..|a| - 1] + [a[|a| - 1]];
  }

  lemma SharedLasts(a: seq<Listed>, b: seq<Listed>)
    requires multiset(a) == multiset(b)
    ensures |a| == |b| && (a != [] ==> a[|a| - 1] in b && b[|b| - 1] in a)
  {
    assert |a| == |multiset(a)| && |b| == |multiset(b)|;
    if a != [] {
      assert a[|a| - 1] in multiset(b) && b[|b| - 1] in multiset(a);
    }
  }

  lemma PrefixesOrdered(a: seq<Listed>, b: seq<Listed>)
    requires Sorted(a) && Rising(b) && a != [] && b != []
    ensures Sorted(a[..|a| - 1]) && Rising(b[..|b| - 1])
  {
  }

  lemma SameUpToLast(a: seq<Listed>, b: seq<Listed>)
    requires |a| == |b| > 0 && a[..|a| - 1] == b[..|b| - 1] && a[|a| - 1] == b[|b| - 1]
    ensures a == b
  {
    assert a == a[..|a| - 1] + [a[|a| - 1]] && b == b[..|b| - 1] + [b[|b| - 1]];
  }

  lemma {:induction false} SortedUnique(a: seq<Listed>, b: seq<Listed>)
    requires Sorted(a) && Rising(b) && multiset(a) == multiset(b)
    ensures a == b
    decreases |a|
  {
    SharedLasts(a, b);
    if a != [] {
      var n := |a| - 1;
      SameLast(a, b);
      WithoutLast(a);
      WithoutLast(b);
      PrefixesOrdered(a, b);
      SortedUnique(a[..n], b[..n]);
      SameUpToLast(a, b);
    }
  }

  // ---- assembly --------------------------------------------------------------------------

  function Join(pieces: seq<Bytes>): Bytes {
    if pieces == [] then [] else Join(pieces[..|pieces| - 1]) + pieces[|pieces| - 1]
  }

  function Bodies(parts: seq<Part>): seq<Bytes> {
    seq(|parts|, i requires 0 <= i < |parts| => parts[i].body)
  }

  function LineFor(p: Part): Listed {
    Listed(Some(p.number), Some(p.tag))
  }

  function LinesFor(parts: seq<Part>): seq<Listed> {
    seq(|parts|, i requires 0 <= i < |parts| => LineFor(parts[i]))
  }

  /** A part is identified by its number and tag among all parts uploaded. */
  predicate Identified(parts: seq<Part>, p: Part) {
    p in parts && forall q :: q in parts && q.number == p.number && q.tag == p.tag ==> q == p
  }

  lemma {:induction false} BodyForIdentified(parts: seq<Part>, p: Part)
    requires Identified(parts, p)
    ensures BodyFor(parts, LineFor(p)) == p.body
  {
    if Fits(parts[0], LineFor(p)) {
      assert parts[0] in parts;
    } else {
      assert parts == [parts[0]] + parts[1..];
      BodyForIdentified(parts[1..], p);
    }
  }

  lemma {:induction false} AssembleLines(parts: seq<Part>, want: seq<Part>)
    requires forall p :: p in want ==> Identified(parts, p)
    ensures Assemble(parts, LinesFor(want)) == Join(Bodies(want))
  {
    if want != [] {
      var n := |want| - 1;
      assert LinesFor(want)[..n] == LinesFor(want[..n]) && Bodies(want)[..n] == Bodies(want[..n]);
      AssembleLines(parts, want[..n]);
      assert want[n] in want;
      BodyForIdentified(parts, want[n]);
    }
  }

  /** A line that gives no number asks for number 0, and one that gives no tag takes any. */
  predicate AsksFor(c: Listed, number: int, tag: string) {
    (c.number == Some(number) || (c.number.None? && number == 0)) && (c.tag == Some(tag) || c.tag.None?)
  }

  /** A line brings the body of the first uploaded part that it asks for, and nothing if there is none. */
  lemma {:induction false} LineBringsFirst(parts: seq<Part>, c: Listed) returns (i: nat)
    ensures i <= |parts| && forall j :: 0 <= j < i ==> !AsksFor(c, parts[j].number, parts[j].tag)
    ensures i < |parts| ==> AsksFor(c, parts[i].number, parts[i].tag)
    ensures BodyFor(parts, c) == if i < |parts| then parts[i].body else []
  {
    i := 0;
    if parts != [] && !Fits(parts[0], c) {
      var rest := parts[1..];
      i := LineBringsFirst(rest, c);
      forall j | 0 <= j < i + 1 ensures !AsksFor(c, parts[j].number, parts[j].tag) {
        if j > 0 { assert parts[j] == rest[j - 1]; }
      }
      i := i + 1;
    }
  }

  /** In whatever order the lines are listed, completion joins the wanted parts by rising number;
      parts uploaded besides them, such as earlier tries of the same number, do not disturb it. */
  lemma AssembleAnyOrder(parts: seq<Part>, want: seq<Part>, list: seq<Listed>)
    requires forall p :: p in want ==> Identified(parts, p)
    requires forall i, j :: 0 <= i < j < |want| ==> want[i].number < want[j].number
    requires multiset(list) == multiset(LinesFor(want))
    ensures Assemble(parts, SortByNumber(list)) == Join(Bodies(want))
  {
    SortExact(list);
    SortedUnique(SortByNumber(list), LinesFor(want));
    AssembleLines(parts, want);
  }

  // ---- parts over a run ------------------------------------------------------------------

  /** The parts of an upload in progress. */
  function PartsAt(st: Storage, bucket: string, key: string, upload: string): Option<seq<Part>> {
    if bucket in st && key in st[bucket] && upload in st[bucket][key].uploads
    then Some(st[bucket][key].uploads[upload]) else None
  }

  /** The request ends this upload. */
  predicate Ends(r: Request, bucket: string, key: string, upload: string) {
    (r.CompleteUpload? || r.AbortUpload?) && r.bucket == bucket && r.key == key && r.upload == upload
  }

  /** The parts a run uploads to one upload, in order. */
  function PartsOf(rs: seq<Request>, bucket: string, key: string, upload: string): seq<Part> {
    if rs == [] then []
    else
      var r := rs[|rs| - 1];
      PartsOf(rs[..|rs| - 1], bucket, key, upload) +
      if r.UploadPart? && r.bucket == bucket && r.key == key && r.upload == upload
      then [Part(r.number, r.body, r.drawn)] else []
  }

  lemma DeleteKeyKeepsUploads(b: Bucket, key: string, k: string)
    ensures (k in b && b[k].uploads != map[]) ==> k in DeleteKey(b, key) && DeleteKey(b, key)[k].uploads == b[k].uploads
  {
  }

  /** Deleting keeps the uploads in progress under the deleted keys. */
  lemma {:induction false} DeleteKeysKeepUploads(b: Bucket, keys: seq<string>, k: string)
    requires k in b && b[k].uploads != map[]
    ensures k in DeleteKeys(b, keys) && DeleteKeys(b, keys)[k].uploads == b[k].uploads
  {
    if keys != [] {
      DeleteKeysKeepUploads(b, keys[..|keys| - 1], k);
      DeleteKeyKeepsUploads(DeleteKeys(b, keys[..|keys| - 1]), keys[|keys| - 1], k);
    }
  }

  lemma StepKeepsParts(st: Storage, r: Request, bucket: string, key: string, upload: string)
    requires PartsAt(st, bucket, key, upload).Some? && Step(st, r).Done? && Legal(st, r)
    requires !Ends(r, bucket, key, upload)
    ensures PartsAt(Step(st, r).storage, bucket, key, upload) ==
      Some(PartsAt(st, bucket, key, upload).value + PartsOf([r], bucket, key, upload))
  {
    var parts := PartsAt(st, bucket, key, upload).value;
    assert parts + [] == parts && [r][..0] == [];
    assert PartsOf([r], bucket, key, upload) ==
      if r.UploadPart? && r.bucket == bucket && r.key == key && r.upload == upload
      then [Part(r.number, r.body, r.drawn)] else [];
    assert upload in st[bucket][key].uploads && st[bucket][key].uploads != map[];
    if r.bucket == bucket {
      if r.DeleteObject? { DeleteKeyKeepsUploads(st[bucket], r.key, key); }
      if r.DeleteObjects? { DeleteKeysKeepUploads(st[bucket], r.keys, key); }
    }
  }

  lemma {:induction false} RunKeepsParts(st: Storage, rs: seq<Request>, bucket: string, key: string, upload: string)
    requires PartsAt(st, bucket, key, upload).Some? && Run(st, rs).Some?
    requires forall r :: r in rs ==> !Ends(r, bucket, key, upload)
    ensures PartsAt(Run(st, rs).value, bucket, key, upload) ==
      Some(PartsAt(st, bucket, key, upload).value + PartsOf(rs, bucket, key, upload))
  {
    var parts := PartsAt(st, bucket, key, upload).value;
    if rs == [] {
      assert parts + [] == parts;
    } else {
      var n := |rs| - 1;
      assert rs[n] in rs && [rs[n]][..0] == [];
      RunKeepsParts(st, rs[..n], bucket, key, upload);
      StepKeepsParts(Run(st, rs[..n]).value, rs[n], bucket, key, upload);
      var x, y := PartsOf(rs[..n], bucket, key, upload), PartsOf([rs[n]], bucket, key, upload);
      assert (parts + x) + y == parts + (x + y);
      assert PartsOf(rs, bucket, key, upload) == x + y by { assert [] + y == y; }
    }
  }

  /** The whole life of an upload: created, filled by any run that uploads the pieces in any order
      among whatever else goes on (deletions of the key included), then completed with the lines
      in any order: readers see the pieces joined by rising part number. */
  lemma MultipartAssembles(st: Storage, bucket: string, key: string, upload: string, rs: seq<Request>,
                           want: seq<Part>, list: seq<Listed>)
    requires bucket in st && Legal(st, CreateUpload(bucket, key, upload))
    requires var st1 := Step(st, CreateUpload(bucket, key, upload)).storage;
      Run(st1, rs).Some? && forall r :: r in rs ==> !Ends(r, bucket, key, upload)
    requires forall p :: p in want ==> Identified(PartsOf(rs, bucket, key, upload), p)
    requires forall i, j :: 0 <= i < j < |want| ==> want[i].number < want[j].number
    requires multiset(list) == multiset(LinesFor(want))
    ensures var st1 := Step(st, CreateUpload(bucket, key, upload)).storage;
      var o := Step(Run(st1, rs).value, CompleteUpload(bucket, key, upload, Some(list)));
      && o == Done(o.storage, Ok) && Peek(o.storage, bucket, key) == Some(Join(Bodies(want)))
      && PartsAt(o.storage, bucket, key, upload).None?
  {
    var st1 := Step(st, CreateUpload(bucket, key, upload)).storage;
    RunKeepsParts(st1, rs, bucket, key, upload);
    var parts := PartsOf(rs, bucket, key, upload);
    assert [] + parts == parts;
    Completes(Run(st1, rs).value, bucket, key, upload, parts, want, list);
  }

  lemma Completes(st: Storage, bucket: string, key: string, upload: string, parts: seq<Part>, want: seq<Part>,
                  list: seq<Listed>)
    requires PartsAt(st, bucket, key, upload) == Some(parts)
    requires forall p :: p in want ==> Identified(parts, p)
    requires forall i, j :: 0 <= i < j < |want| ==> want[i].number < want[j].number
    requires multiset(list) == multiset(LinesFor(want))
    ensures var o := Step(st, CompleteUpload(bucket, key, upload, Some(list)));
      && o == Done(o.storage, Ok) && Peek(o.storage, bucket, key) == Some(Join(Bodies(want)))
      && PartsAt(o.storage, bucket, key, upload).None?
  {
    AssembleAnyOrder(parts, want, list);
  }
}
