/** uploadParts of internal/storage/s3.go: the parts of a multipart upload. */
module Multipart {
  import opened Prelude

  const MIN_PART: nat := 16_777_216
  const MAX_PARTS: nat := 10_000
  const MAX_INT64: int := 0x7FFF_FFFF_FFFF_FFFF

  function PartSize(size: nat): (n: nat)
    ensures n >= MIN_PART
  {
    var least := (size + 9999) / 10000;
    if least > MIN_PART then least else MIN_PART
  }

  /** A part as it is uploaded: its number, where it begins and how long it is. */
  datatype Part = Part(number: int, offset: int, length: int)

  /** The sizes whose offsets stay inside 64 bits, the one past the end included. */
  predicate InRange(size: nat) { size + PartSize(size) <= MAX_INT64 }

  /** Parts that lie side by side from an offset on. */
  ghost predicate Consecutive(parts: seq<Part>, from: nat, first: nat) {
    && (parts != [] ==> parts[0].offset == from)
    && (forall k :: 0 <= k < |parts| ==> parts[k].number == first + k && parts[k].length > 0)
    && (forall j, k :: 0 <= j && k == j + 1 < |parts| ==> parts[k].offset == parts[j].offset + parts[j].length)
  }

  function End(parts: seq<Part>, from: nat): int {
    if parts == [] then from else parts[|parts| - 1].offset + parts[|parts| - 1].length
  }

  /** uploadParts. The service may refuse any part, and then nothing is returned. When it takes all of
      them the parts are numbered from one, lie side by side and cover the file exactly; all but the
      last have the same size, and there are never more than ten thousand. */
  method UploadParts(size: nat, accepts: int -> bool) returns (parts: Option<seq<Part>>)
    requires InRange(size)
    ensures parts.Some? ==>
              && Consecutive(parts.value, 0, 1) && End(parts.value, 0) == size
              && (forall k :: 0 <= k < |parts.value| - 1 ==> parts.value[k].length == PartSize(size))
              && (forall p :: p in parts.value ==> p.length <= PartSize(size) && accepts(p.number))
              && |parts.value| <= MAX_PARTS
    ensures parts.None? ==> exists n :: 1 <= n <= MAX_PARTS && !accepts(n)
  {
    hide PartSize, Progress, Consecutive;
    var partSize := PartSize(size);
    var done: seq<Part> := [];
    var offset := 0;
    Begin(size);
    while offset < size
      invariant offset <= size + partSize && Progress(size, offset, done)
      invariant forall p :: p in done ==> accepts(p.number)
      decreases size - offset
    {
      PartsAreFew(size, offset, done);
      var n := if partSize < size - offset then partSize else size - offset;
      var number := |done| + 1;
      if !accepts(number) {
        return None;
      }
      Turn(size, offset, done, n);
      done := done + [Part(number, offset, n)];
      assert offset + partSize <= MAX_INT64;
      offset := offset + partSize;
    }
    Finished(size, offset, done);
    return Some(done);
  }

  /** The loop between two parts: so far all parts are full, unless the last one has been made. */
  ghost predicate Progress(size: nat, offset: nat, done: seq<Part>) {
    && Consecutive(done, 0, 1) && offset == PartSize(size) * |done|
    && End(done, 0) == (if offset < size then offset else size)
    && (forall k :: 0 <= k < |done| - 1 ==> done[k].length == PartSize(size))
    && (forall p :: p in done ==> p.length <= PartSize(size))
    && offset < size + PartSize(size)
  }

  lemma Begin(size: nat)
    ensures Progress(size, 0, [])
  {
  }

  lemma Turn(size: nat, offset: nat, done: seq<Part>, n: nat)
    requires Progress(size, offset, done) && offset < size
    requires n == if PartSize(size) < size - offset then PartSize(size) else size - offset
    ensures Progress(size, offset + PartSize(size), done + [Part(|done| + 1, offset, n)])
  {
    hide PartSize;
    var p, next := PartSize(size), done + [Part(|done| + 1, offset, n)];
    OneMore(p, |done|, |done| + 1);
    if done != [] {
      LastIsFull(p, size, offset, done);
    }
    assert next[|done|] == Part(|done| + 1, offset, n);
  }

  lemma OneMore(p: nat, k: nat, next: nat)
    requires next == k + 1
    ensures p * next == p * k + p
  {
    assert p * (k + 1) == p * k + p;
  }

  lemma NoneYet(p: nat)
    ensures p * 0 == 0
  {
  }

  lemma LastIsFull(p: nat, size: nat, offset: nat, done: seq<Part>)
    requires Progress(size, offset, done) && offset < size && done != [] && p == PartSize(size)
    ensures done[|done| - 1].length == p
  {
    hide PartSize;
    AllButOne(p, done);
    OneMore(p, |done| - 1, |done|);
  }

  /** With all but the last part full, the last one begins at a multiple of the size. */
  lemma {:induction false} AllButOne(p: nat, done: seq<Part>)
    requires done != [] && Consecutive(done, 0, 1) && forall k :: 0 <= k < |done| - 1 ==> done[k].length == p
    ensures done[|done| - 1].offset == p * (|done| - 1)
    decreases |done|
  {
    hide PartSize;
    if |done| > 1 {
      var front, last := done[..|done| - 1], |done| - 1;
      assert Consecutive(front, 0, 1);
      AllButOne(p, front);
      OneMore(p, last - 1, last);
      assert done[last].offset == done[last - 1].offset + done[last - 1].length;
      assert front[last - 1] == done[last - 1] && front[|front| - 1] == done[last - 1];
      assert done[last - 1].length == p && done[last - 1].offset == p * (last - 1);
      assert done[last].offset == p * last;
    } else {
      NoneYet(p);
      assert done[0].offset == 0;
    }
  }

  lemma Finished(size: nat, offset: nat, done: seq<Part>)
    requires Progress(size, offset, done) && offset >= size
    ensures Consecutive(done, 0, 1) && End(done, 0) == size && |done| <= MAX_PARTS
    ensures forall k :: 0 <= k < |done| - 1 ==> done[k].length == PartSize(size)
    ensures forall p :: p in done ==> p.length <= PartSize(size)
  {
    hide PartSize, Consecutive;
    if done != [] {
      OneMore(PartSize(size), |done| - 1, |done|);
      Few(size, |done| - 1);
    }
  }

  /** Before the end of the file there is always room for one more part. */
  lemma PartsAreFew(size: nat, offset: nat, done: seq<Part>)
    requires Progress(size, offset, done) && offset < size
    ensures |done| < MAX_PARTS
  {
    Few(size, |done|);
  }

  lemma Few(size: nat, k: nat)
    requires PartSize(size) * k < size
    ensures k < MAX_PARTS
  {
    var least := (size + 9999) / 10000;
    assert 10000 * least >= size;
    if k >= MAX_PARTS {
      Grows(PartSize(size), least, k);
    }
  }

  lemma Grows(a: nat, b: nat, k: nat)
    requires a >= b && k >= 10000
    ensures a * k >= 10000 * b
  {
    assert a * k >= a * 10000;
  }

  /** The sizes that do not wrap reach beyond nine exabytes. */
  lemma LargeFilesAreInRange(size: nat)
    requires size <= 9_000_000_000_000_000_000
    ensures InRange(size)
  {
  }

  /** The size of the parts is the least of at least 16 MiB with which 10,000 are enough. */
  lemma PartsAreAsSmallAsCanBe(size: nat, n: nat)
    ensures PartSize(size) >= 16_777_216 && 10_000 * PartSize(size) >= size
    ensures n >= 16_777_216 && 10_000 * n >= size ==> PartSize(size) <= n
  {
    var least := (size + 9999) / 10000;
    assert 10000 * least <= size + 9999 < 10000 * least + 10000;
  }
}
