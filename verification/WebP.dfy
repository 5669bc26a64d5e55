/** stripWebP of internal/metadata/strip.go: the metadata chunks go, and the two places that
    mention them are repaired, the RIFF size and the VP8X flags. */
module WebP {
  import opened Prelude
  import opened Bytes
  import opened Selection

  const RIFF: bytes := [82, 73, 70, 70]
  const WEBP: bytes := [87, 69, 66, 80]
  const EXIF: bytes := [69, 88, 73, 70]
  const XMP: bytes := [88, 77, 80, 32]
  const VP8X: bytes := [86, 80, 56, 88]

  datatype Chunk = Chunk(kind: bytes, body: bytes, pad: bytes)

  function LooksLike(d: bytes): bool { |d| >= 12 && d[..4] == RIFF && d[8..12] == WEBP }

  /** The flag byte without the Exif (0x08) and XMP (0x04) bits, and with the Exif bit. */
  function ClearFlags(f: byte): byte { f / 16 * 16 + f % 4 }
  function SetExif(f: byte): byte { if f / 8 % 2 == 1 then f else f + 8 }

  lemma FlagBits(f: byte)
    ensures ClearFlags(ClearFlags(f)) == ClearFlags(f)
    ensures ClearFlags(SetExif(ClearFlags(f))) == ClearFlags(f)
  {
    FourBits(f / 16, f % 4);
  }

  lemma FourBits(h: nat, l: nat)
    requires h < 16 && l < 4
    ensures (h * 16 + l) / 16 == h && (h * 16 + l) % 4 == l && (h * 16 + l) / 8 % 2 == 0
    ensures (h * 16 + l + 8) / 16 == h && (h * 16 + l + 8) % 4 == l
  {
    assert (h * 16 + l) / 8 == h * 2;
  }

  // ---- the grammar (section 2 of RFC 9649) ---------------------------------------------------------

  predicate ChunkOk(c: Chunk) { |c.kind| == 4 && |c.body| < U32 && |c.pad| == |c.body| % 2 }
  predicate AllOk(cs: seq<Chunk>) { cs == [] || (ChunkOk(cs[0]) && AllOk(cs[1..])) }

  function PrintChunk(c: Chunk): bytes { c.kind + Put32(Little, |c.body|) + c.body + c.pad }
  function Print(cs: seq<Chunk>): bytes { if cs == [] then [] else PrintChunk(cs[0]) + Print(cs[1..]) }

  function Size(d: bytes): nat
    requires |d| >= 8
  {
    Get32(Little, d[4..8])
  }

  function Extent(d: bytes): (n: nat)
    requires |d| >= 8
    ensures n >= 8
  {
    8 + Size(d) + Size(d) % 2
  }

  function Head(d: bytes): Chunk
    requires |d| >= 8 && Extent(d) <= |d|
  {
    Chunk(d[..4], d[8..8 + Size(d)], d[8 + Size(d)..Extent(d)])
  }

  /** All the chunks of a container's body; None when one runs past its end. */
  function Parse(d: bytes): Option<seq<Chunk>>
    decreases |d|
  {
    if d == [] then Some([])
    else if |d| < 8 || Extent(d) > |d| then None
    else Prepend([Head(d)], Parse(d[Extent(d)..]))
  }

  function Prepend(done: seq<Chunk>, rest: Option<seq<Chunk>>): Option<seq<Chunk>> {
    if rest.None? then None else Some(done + rest.value)
  }

  lemma HeadOfPrint(c: Chunk, rest: bytes)
    requires ChunkOk(c)
    ensures var d := PrintChunk(c) + rest;
            |d| >= 8 && Extent(d) == |PrintChunk(c)| && Head(d) == c && d[Extent(d)..] == rest && Size(d) == |c.body|
  {
    hide Put32, Get32;
    var d, n := PrintChunk(c) + rest, |c.body|;
    Get32Put32(Little, n);
    assert d[4..8] == Put32(Little, n);
    assert d[..4] == c.kind && d[8..8 + n] == c.body && d[8 + n..8 + n + n % 2] == c.pad && d[8 + n + n % 2..] == rest;
  }

  lemma PrintOfHead(d: bytes)
    requires |d| >= 8 && Extent(d) <= |d|
    ensures ChunkOk(Head(d)) && PrintChunk(Head(d)) == d[..Extent(d)]
  {
    hide Put32, Get32;
    Put32Get32(Little, d[4..8]);
    assert d[..Extent(d)] == d[..4] + d[4..8] + d[8..8 + Size(d)] + d[8 + Size(d)..Extent(d)];
  }

  lemma {:induction false} ParsePrint(cs: seq<Chunk>)
    requires AllOk(cs)
    ensures Parse(Print(cs)) == Some(cs)
  {
    hide PrintChunk, Extent, Head;
    if cs != [] {
      HeadOfPrint(cs[0], Print(cs[1..]));
      ParsePrint(cs[1..]);
      assert [cs[0]] + cs[1..] == cs;
    }
  }

  lemma {:induction false} ParseIsPrint(d: bytes)
    requires Parse(d).Some?
    ensures AllOk(Parse(d).value) && Print(Parse(d).value) == d
    decreases |d|
  {
    hide PrintChunk, Extent;
    if d != [] {
      PrintOfHead(d);
      ParseIsPrint(d[Extent(d)..]);
      var cs := Parse(d[Extent(d)..]).value;
      assert ([Head(d)] + cs)[1..] == cs;
      assert d == d[..Extent(d)] + d[Extent(d)..];
    }
  }

  // ---- stripping ----------------------------------------------------------------------------------------

  predicate Dropped(kind: bytes) { kind == EXIF || kind == XMP }

  /** VP8X stops promising what is no longer there. */
  function Clean(c: Chunk): (r: Chunk)
    ensures |r.body| == |c.body| && r.kind == c.kind && r.pad == c.pad
  {
    if c.kind == VP8X && |c.body| >= 1 then c.(body := c.body[0 := ClearFlags(c.body[0])]) else c
  }

  function Keep(cs: seq<Chunk>): seq<Chunk> {
    if cs == [] then [] else (if Dropped(cs[0].kind) then [] else [Clean(cs[0])]) + Keep(cs[1..])
  }

  /** The body the RIFF size leaves: bytes past it are not part of the image. A size below 12 cuts
      into the header, and then nothing of the body is left. */
  function Body(d: bytes): bytes
    requires |d| >= 12
  {
    var limit := Get32(Little, d[4..8]) + 8;
    if limit < 12 then [] else if limit < |d| then d[12..limit] else d[12..]
  }

  function Container(body: bytes): bytes { RIFF + Put32(Little, |body| + 4) + WEBP + body }

  function Stripped(d: bytes): Option<bytes> {
    if !LooksLike(d) || Parse(Body(d)).None? then None else Some(Container(Print(Keep(Parse(Body(d)).value))))
  }

  lemma {:induction false} KeepAppend(cs: seq<Chunk>, c: Chunk)
    ensures Keep(cs + [c]) == Keep(cs) + (if Dropped(c.kind) then [] else [Clean(c)])
  {
    if cs != [] {
      assert (cs + [c])[1..] == cs[1..] + [c];
      KeepAppend(cs[1..], c);
    } else {
      assert (cs + [c])[1..] == [];
    }
  }

  lemma {:induction false} PrintAppend(cs: seq<Chunk>, c: Chunk)
    ensures Print(cs + [c]) == Print(cs) + PrintChunk(c)
  {
    if cs != [] {
      assert (cs + [c])[1..] == cs[1..] + [c];
      PrintAppend(cs[1..], c);
    } else {
      assert (cs + [c])[1..] == [];
    }
  }

  /** What the loop appends for the chunk at the front of d: nothing, the chunk with its flag byte
      cleared, or the chunk as it is. */
  function Copied(d: bytes): bytes
    requires |d| >= 8 && Extent(d) <= |d|
  {
    if Dropped(d[..4]) then []
    else if d[..4] == VP8X && Size(d) >= 1 then d[..Extent(d)][8 := ClearFlags(d[8])]
    else d[..Extent(d)]
  }

  lemma CopiedIsClean(d: bytes)
    requires |d| >= 8 && Extent(d) <= |d| && !Dropped(d[..4])
    ensures Copied(d) == PrintChunk(Clean(Head(d)))
  {
    hide Put32, Get32, ClearFlags;
    PrintOfHead(d);
    if d[..4] == VP8X && Size(d) >= 1 {
      var c, r := Head(d), Clean(Head(d));
      assert c.body[0] == d[8];
      assert PrintChunk(r) == PrintChunk(c)[8 := ClearFlags(d[8])];
    }
  }

  lemma StripOne(d: bytes, done: seq<Chunk>)
    requires |d| >= 8 && Extent(d) <= |d|
    ensures Print(Keep(done + [Head(d)])) == Print(Keep(done)) + Copied(d)
    ensures Prepend(done, Parse(d)) == Prepend(done + [Head(d)], Parse(d[Extent(d)..]))
  {
    hide Put32, Get32, PrintChunk, Extent, Print, Keep, Clean;
    KeepAppend(done, Head(d));
    if Dropped(d[..4]) {
      assert Keep(done) + [] == Keep(done);
      assert Print(Keep(done)) + [] == Print(Keep(done));
    } else {
      CopiedIsClean(d);
      PrintAppend(Keep(done), Clean(Head(d)));
    }
    if Parse(d[Extent(d)..]).Some? {
      assert done + ([Head(d)] + Parse(d[Extent(d)..]).value) == done + [Head(d)] + Parse(d[Extent(d)..]).value;
    }
  }

  /** What has been read of the body, and what has been written of it behind the front. */
  ghost predicate Progress(front: bytes, body: bytes, k: nat, out: bytes, done: seq<Chunk>) {
    && k <= |body| && out == front + Print(Keep(done))
    && Parse(body) == Prepend(done, Parse(body[k..]))
  }

  method Strip(input: bytes) returns (r: Option<bytes>)
    ensures r == Stripped(input)
  {
    hide Put32, Get32, Copied, Extent, Container, Progress, Stripped, Dropped, Size, Head, ClearFlags;
    if !LooksLike(input) {
      NotAContainer(input);
      return None;
    }
    var data: bytes := input;
    var size := Get32(Little, input[4..8]) + 8;
    if size < |input| {
      data := input[..size];
    }
    ghost var body: bytes := Body(input);
    BodyIs(input, data);
    hide Body;
    ghost var front: bytes := input[..12];
    var out: bytes := input[..12];
    var i := 12;
    ghost var done: seq<Chunk> := [];
    NothingYet(front, body);
    while i < |data|
      invariant 12 <= i <= 12 + |body|
      invariant |data| == 12 + |body| || (|data| < 12 && body == [])
      invariant |data| >= 12 ==> data[12..] == body
      invariant Progress(front, body, i - 12, out, done)
      decreases |data| - i
    {
      ReadAt(data, body, i);
      Fails(input, front, body, i - 12, out, done);
      if i + 8 > |data| {
        return None;
      }
      var kind, length := data[i..i + 4], Get32(Little, data[i + 4..i + 8]);
      if i + 8 + length > |data| {
        return None;
      }
      var end := i + 8 + (length + length % 2);
      if end > |data| {
        return None;
      }
      ChunkAt(data, body, i, end);
      var chunk: bytes := data[i..end];
      if kind == EXIF || kind == XMP {
        OneTurn(front, body, i - 12, out, done, []);
        assert out + [] == out;
      } else {
        if kind == VP8X && length >= 1 {
          chunk := chunk[8 := ClearFlags(chunk[8])];
        }
        OneTurn(front, body, i - 12, out, done, chunk);
        out := out + chunk;
      }
      done := done + [Head(body[i - 12..])];
      i := end;
    }
    Written(input, front, body, out, done);
    out := out[..4] + Put32(Little, |out| - 8) + out[8..];
    return Some(out);
  }

  lemma Behind(data: bytes, body: bytes, i: nat)
    requires 12 <= i <= |data| && data[12..] == body
    ensures body[i - 12..] == data[i..]
  {
  }

  lemma BodyIs(input: bytes, data: bytes)
    requires LooksLike(input)
    requires var size := Get32(Little, input[4..8]) + 8; data == if size < |input| then input[..size] else input
    ensures var body := Body(input);
            && (|data| == 12 + |body| || (|data| < 12 && body == []))
            && (|data| >= 12 ==> data[12..] == body)
  {
    hide Get32;
  }

  /** What the loop reads of a chunk's header. */
  lemma ReadAt(data: bytes, body: bytes, i: nat)
    requires 12 <= i < |data| && data[12..] == body
    ensures var d := body[i - 12..];
            && |d| == |data| - i
            && (i + 8 <= |data| ==>
                  var n := Get32(Little, data[i + 4..i + 8]); Size(d) == n && Extent(d) == 8 + (n + n % 2))
  {
    hide Get32;
    Behind(data, body, i);
    if i + 8 <= |data| {
      SliceWithin(data, i, |data| - i, 4, 8);
      assert data[i..i + (|data| - i)] == data[i..];
    }
  }

  lemma NotAContainer(input: bytes)
    requires !LooksLike(input)
    ensures Stripped(input) == None
  {
  }

  lemma NothingYet(front: bytes, body: bytes)
    ensures Progress(front, body, 0, front, [])
  {
    ParseStart(body);
    assert body[0..] == body && front + [] == front;
  }

  /** A chunk that runs past the body ends the walk without a result. */
  lemma Fails(input: bytes, front: bytes, body: bytes, k: nat, out: bytes, done: seq<Chunk>)
    requires LooksLike(input) && front == input[..12] && body == Body(input) && Progress(front, body, k, out, done) && k < |body|
    ensures |body[k..]| < 8 || Extent(body[k..]) > |body[k..]| ==> Stripped(input) == None
  {
    hide Put32, Get32, Print, Keep, Parse, Extent, Container;
    ParseFails(body[k..]);
  }

  /** What has been written after one more chunk. */
  lemma OneTurn(front: bytes, body: bytes, k: nat, out: bytes, done: seq<Chunk>, chunk: bytes)
    requires Progress(front, body, k, out, done)
    requires |body[k..]| >= 8 && Extent(body[k..]) <= |body[k..]| && chunk == Copied(body[k..])
    ensures Progress(front, body, k + Extent(body[k..]), out + chunk, done + [Head(body[k..])])
  {
    hide Print, Keep, Parse, Copied, Extent, Head, Prepend;
    var d := body[k..];
    StripOne(d, done);
    Assoc(front, Print(Keep(done)), chunk);
    assert body[k + Extent(d)..] == d[Extent(d)..];
  }

  lemma Written(input: bytes, front: bytes, body: bytes, out: bytes, done: seq<Chunk>)
    requires LooksLike(input) && front == input[..12] && body == Body(input) && Progress(front, body, |body|, out, done)
    ensures |out| >= 12 && Stripped(input) == Some(out[..4] + Put32(Little, |out| - 8) + out[8..])
  {
    hide Put32, Get32, Print, Keep, Container;
    assert body[|body|..] == [] && done + [] == done;
    ContainerIs(input, Print(Keep(done)));
  }

  /** What the loop appends for the chunk from i to end. */
  lemma ChunkAt(data: bytes, body: bytes, i: nat, end: nat)
    requires 12 <= i && i + 8 <= end <= |data| && data[12..] == body
    requires var d := body[i - 12..]; |d| >= 8 && Extent(d) == end - i
    ensures var d, kind, chunk := body[i - 12..], data[i..i + 4], data[i..end];
            && (kind == EXIF || kind == XMP ==> Copied(d) == [])
            && (kind != EXIF && kind != XMP ==>
                  if kind == VP8X && Size(d) >= 1 then Copied(d) == chunk[8 := ClearFlags(chunk[8])] else Copied(d) == chunk)
  {
    hide Put32, Get32, Extent, Copied, ClearFlags;
    var d := body[i - 12..];
    Behind(data, body, i);
    CopiedCases(d);
    ChunkSlices(data, body, i, end);
    SliceWithin(data, i, |data| - i, 0, 4);
    assert data[i..i + (|data| - i)] == data[i..];
    assert d[..4] == d[0..4] == data[i..i + 4];
    ExtentIs(d);
    assert Size(d) >= 1 ==> data[i..end][8] == d[8];
  }

  lemma ChunkSlices(data: bytes, body: bytes, i: nat, end: nat)
    requires 12 <= i <= end <= |data| && data[12..] == body
    ensures var d := body[i - 12..];
            data[i..end] == d[..end - i] && body[end - 12..] == d[end - i..]
  {
    SliceWithin(data, 12, |body|, i - 12, end - 12);
    assert data[12..12 + |body|] == body;
    SliceWithin(body, i - 12, |body| - (i - 12), 0, end - i);
    assert body[i - 12..i - 12 + (|body| - (i - 12))] == body[i - 12..];
  }

  lemma ExtentIs(d: bytes)
    requires |d| >= 8
    ensures Size(d) == Get32(Little, d[4..8]) && Extent(d) == 8 + (Size(d) + Size(d) % 2)
  {
  }

  lemma ContainerIs(input: bytes, body: bytes)
    requires LooksLike(input)
    ensures var out := input[..12] + body;
            out[..4] + Put32(Little, |out| - 8) + out[8..] == Container(body)
  {
    hide Put32, Get32;
  }

  lemma CopiedCases(d: bytes)
    requires |d| >= 8 && Extent(d) <= |d|
    ensures Dropped(d[..4]) ==> Copied(d) == []
    ensures !Dropped(d[..4]) && d[..4] == VP8X && Size(d) >= 1 ==> Copied(d) == d[..Extent(d)][8 := ClearFlags(d[8])]
    ensures !Dropped(d[..4]) && !(d[..4] == VP8X && Size(d) >= 1) ==> Copied(d) == d[..Extent(d)]
  {
  }

  lemma ParseStart(d: bytes)
    ensures Print(Keep([])) == [] && Parse(d) == Prepend([], Parse(d))
    ensures d == [] ==> Parse(d) == Some([])
  {
    assert Parse(d).Some? ==> [] + Parse(d).value == Parse(d).value;
  }

  lemma ParseFails(d: bytes)
    requires d != []
    ensures |d| < 8 || Extent(d) > |d| ==> Parse(d).None?
  {
  }

  lemma {:induction false} KeepOk(cs: seq<Chunk>)
    requires AllOk(cs)
    ensures AllOk(Keep(cs)) && Keep(Keep(cs)) == Keep(cs) && |Print(Keep(cs))| <= |Print(cs)|
    ensures forall c :: c in Keep(cs) ==> !Dropped(c.kind) && Clean(c) == c
  {
    hide ClearFlags;
    if cs != [] {
      KeepOk(cs[1..]);
      var c := cs[0];
      if Dropped(c.kind) {
        assert Keep(cs) == Keep(cs[1..]);
      } else {
        CleanTwice(c);
        assert Keep(cs)[1..] == Keep(cs[1..]);
      }
    }
  }

  lemma CleanTwice(c: Chunk)
    ensures Clean(Clean(c)) == Clean(c)
  {
    hide ClearFlags;
    if c.kind == VP8X && |c.body| >= 1 {
      FlagBits(c.body[0]);
    }
  }

  /** A container whose size field fits says how long it is, so its body is all of it. */
  lemma BodyOfContainer(body: bytes)
    requires |body| + 4 < U32
    ensures LooksLike(Container(body)) && Body(Container(body)) == body
    ensures Get32(Little, Container(body)[4..8]) == |Container(body)| - 8
  {
    hide Put32, Get32;
    var o := Container(body);
    Get32Put32(Little, |body| + 4);
    assert o[..4] == RIFF && o[4..8] == Put32(Little, |body| + 4) && o[8..12] == WEBP && o[12..] == body;
  }

  /** The output's chunks are exactly the kept chunks with the flags cleared, its RIFF size is its
      length less eight without wrapping, and stripping it again changes nothing. */
  lemma StripKeepsThePicture(d: bytes)
    requires Stripped(d).Some?
    ensures var o, kept := Stripped(d).value, Keep(Parse(Body(d)).value);
            && LooksLike(o)
            && Parse(Body(o)) == Some(kept) && Body(o) == o[12..]
            && (forall c :: c in kept ==> !Dropped(c.kind) && Clean(c) == c)
            && Get32(Little, o[4..8]) == |o| - 8 < U32
            && Stripped(o) == Some(o)
  {
    hide Put32, Get32, Print, Keep, Clean;
    var cs := Parse(Body(d)).value;
    ParseIsPrint(Body(d));
    KeepOk(cs);
    ParsePrint(Keep(cs));
    BodyOfContainer(Print(Keep(cs)));
  }

  lemma {:induction false} NothingIsKept(cs: seq<Chunk>)
    ensures Keep(cs) == [] <==> forall c :: c in cs ==> Dropped(c.kind)
  {
    if cs != [] {
      NothingIsKept(cs[1..]);
      assert cs == [cs[0]] + cs[1..];
      if Keep(cs) != [] && Dropped(cs[0].kind) {
        var c :| c in cs[1..] && !Dropped(c.kind);
        assert c in cs;
      }
    }
  }

  /** A file strips to its bare twelve-byte header exactly when its body holds dropped chunks and
      nothing else. A size field of at most 4 leaves no body at all, whatever follows the header. */
  lemma BareHeader(d: bytes)
    requires LooksLike(d)
    ensures Stripped(d) == Some(Container([])) <==>
            Parse(Body(d)).Some? && forall c :: c in Parse(Body(d)).value ==> Dropped(c.kind)
    ensures Body(d) == [] <==> Get32(Little, d[4..8]) <= 4 || |d| == 12
    ensures Get32(Little, d[4..8]) <= 4 ==> Stripped(d) == Some(Container([]))
  {
    hide Get32, Put32, Keep, Dropped;
    if Parse(Body(d)).Some? {
      var cs := Parse(Body(d)).value;
      NothingIsKept(cs);
      ParseIsPrint(Body(d));
      KeepOk(cs);
      assert Container(Print(Keep(cs)))[12..] == Print(Keep(cs)) && Container([])[12..] == [];
      assert Keep(cs) != [] ==> |Print(Keep(cs))| >= |PrintChunk(Keep(cs)[0])| >= 8;
    }
  }

  // ---- what stays, by chunk type -----------------------------------------------------------------------

  /** Every chunk but EXIF and XMP. */
  predicate IsPicture(c: Chunk) { c.kind != [0x45, 0x58, 0x49, 0x46] && c.kind != [0x58, 0x4D, 0x50, 0x20] }

  /** The same chunk, without the Exif bit 0x08 and the XMP bit 0x04 in the flags of a VP8X chunk. */
  ghost predicate Unflagged(c: Chunk, r: Chunk) {
    if c.kind == [0x56, 0x50, 0x38, 0x58] && c.body != [] then
      && r.kind == c.kind && r.pad == c.pad && |r.body| == |c.body| && r.body[1..] == c.body[1..]
      && OtherBits(c.body[0], r.body[0])
    else r == c
  }

  /** Bits 0x08 and 0x04 are clear; the two below them and the four above are what they were. */
  predicate OtherBits(f: byte, g: byte) { g / 4 % 4 == 0 && g % 4 == f % 4 && g / 16 == f / 16 }

  lemma BitByBit(f: byte)
    ensures OtherBits(f, ClearFlags(f))
  {
    Nibbles(f / 16, 0, f % 4);
  }

  lemma Nibbles(h: nat, m: nat, l: nat)
    requires m < 4 && l < 4
    ensures var n := h * 16 + m * 4 + l; n / 16 == h && n / 4 % 4 == m && n % 4 == l
  {
    assert (h * 16 + m * 4 + l) / 4 == h * 4 + m;
  }

  lemma CleanIsUnflagged(c: Chunk)
    ensures Unflagged(c, Clean(c))
  {
    hide ClearFlags, OtherBits;
    if c.kind == VP8X && c.body != [] {
      BitByBit(c.body[0]);
    }
  }

  /** The chunks that stay, as they were in the input. */
  function Staying(cs: seq<Chunk>): seq<Chunk> {
    if cs == [] then [] else Staying(cs[..|cs| - 1]) + (if IsPicture(cs[|cs| - 1]) then [cs[|cs| - 1]] else [])
  }

  ghost predicate AllUnflagged(zs: seq<Chunk>, ys: seq<Chunk>) {
    |zs| == |ys| && forall j :: 0 <= j < |ys| ==> Unflagged(zs[j], ys[j])
  }

  lemma {:induction false} KeepIsPicture(cs: seq<Chunk>) returns (at: seq<nat>)
    ensures Picks(cs, at, Staying(cs), IsPicture) && AllUnflagged(Staying(cs), Keep(cs))
  {
    hide IsPicture, Picks, Clean, Unflagged, Dropped;
    at := [];
    if cs == [] {
      NoneToPick(IsPicture);
    } else {
      var before, c := cs[..|cs| - 1], cs[|cs| - 1];
      assert cs == before + [c];
      at := KeepIsPicture(before);
      KeepAppend(before, c);
      assert Dropped(c.kind) <==> !IsPicture(c) by { DroppedIsNot(c); }
      OneMore(before, c, at, Staying(before), IsPicture);
      CleanIsUnflagged(c);
      if IsPicture(c) {
        at := at + [|before|];
      } else {
        assert Staying(before) + [] == Staying(before);
      }
    }
  }

  lemma DroppedIsNot(c: Chunk)
    ensures Dropped(c.kind) <==> !IsPicture(c)
  {
  }

  /** For every file that is taken: the output is a container of, byte for byte and in order, the chunks
      that are part of the picture, but for two bits of the flags. */
  lemma ThePictureStays(d: bytes) returns (at: seq<nat>, zs: seq<Chunk>, ys: seq<Chunk>)
    requires Stripped(d).Some?
    ensures Picks(Parse(Body(d)).value, at, zs, IsPicture) && AllUnflagged(zs, ys)
    ensures var o := Stripped(d).value;
            |o| >= 12 && o[..4] == [0x52, 0x49, 0x46, 0x46] && o[8..12] == [0x57, 0x45, 0x42, 0x50] && o[12..] == Print(ys)
  {
    hide Parse, Print, Keep, IsPicture, Put32;
    var cs := Parse(Body(d)).value;
    zs, ys := Staying(cs), Keep(cs);
    at := KeepIsPicture(cs);
  }

  /** Setting the Exif bit 0x08 sets it; the three below it and the four above are what they were. */
  lemma FlagIsSet(f: byte)
    ensures var g := SetExif(f); g / 8 % 2 == 1 && g % 8 == f % 8 && g / 16 == f / 16
  {
    Halves(f / 16, f / 8 % 2, f % 8);
    Halves(f / 16, 1, f % 8);
    assert f == f / 8 * 8 + f % 8 && f / 8 == f / 16 * 2 + f / 8 % 2;
  }

  lemma Halves(h: nat, m: nat, l: nat)
    requires m < 2 && l < 8
    ensures var n := h * 16 + m * 8 + l; n / 16 == h && n / 8 % 2 == m && n % 8 == l
  {
    assert (h * 16 + m * 8 + l) / 8 == h * 2 + m;
  }
}
