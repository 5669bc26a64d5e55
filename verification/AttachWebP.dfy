/** attachWebPExif of internal/metadata/filter.go: the VP8X flag says the block is there, the block
    goes behind the last chunk and the RIFF size is repaired. */
module AttachWebP {
  import opened Prelude
  import opened Bytes
  import opened WebP
  import TiffFilter

  // ---- the walk over the bytes -------------------------------------------------------------------------------

  predicate IsFlags(kind: bytes, size: nat) { kind == VP8X && size == 10 }

  /** The chunk at the front of d with its flag set if it is the one that has flags. */
  function Flagged(d: bytes): (r: bytes)
    requires |d| >= 8 && 8 + Size(d) <= |d|
    ensures |r| == |d|
  {
    if IsFlags(d[..4], Size(d)) then d[8 := SetExif(d[8])] else d
  }

  /** All the chunks with the flag set; None when one declares more than there is. A last chunk
      without its padding byte is accepted. */
  function Marked(d: bytes): (r: Option<bytes>)
    ensures r.Some? ==> |r.value| == |d|
    decreases |d|
  {
    if |d| < 8 then Some(d)
    else if 8 + Size(d) > |d| then None
    else if Extent(d) >= |d| then Some(Flagged(d))
    else Join(Flagged(d)[..Extent(d)], Marked(d[Extent(d)..]))
  }

  function Join(a: bytes, b: Option<bytes>): (r: Option<bytes>)
    ensures r.Some? <==> b.Some?
    ensures r.Some? ==> |r.value| == |a| + |b.value|
  {
    if b.None? then None else Some(a + b.value)
  }

  predicate Found(d: bytes)
    decreases |d|
  {
    |d| >= 8 && 8 + Size(d) <= |d|
    && (IsFlags(d[..4], Size(d)) || (Extent(d) < |d| && Found(d[Extent(d)..])))
  }

  function BlockChunk(block: bytes): Chunk { Chunk(EXIF, block, Zeros(|block| % 2)) }

  function ToWebP(clean: bytes, block: bytes): Option<bytes>
    requires |clean| >= 12
  {
    if Marked(clean[12..]).None? || !Found(clean[12..]) then None
    else Some(Container(Marked(clean[12..]).value + PrintChunk(BlockChunk(block))))
  }

  /** Where the loop stands: the front of the body is marked, the rest is as it was. */
  ghost predicate Progress(clean: bytes, out: bytes, at: nat, found: bool) {
    && 12 <= |clean| == |out| && out[..12] == clean[..12]
    && (if at >= |out| then
          Marked(clean[12..]) == Some(out[12..]) && Found(clean[12..]) == found
        else
          && 12 <= at && out[at..] == clean[at..]
          && Marked(clean[12..]) == Join(out[12..at], Marked(clean[at..]))
          && (Found(clean[12..]) <==> found || Found(clean[at..])))
  }

  lemma Begin(clean: bytes)
    requires |clean| >= 12
    ensures Progress(clean, clean, 12, false)
  {
    hide Marked, Found;
    assert clean[12..12] == [];
    if Marked(clean[12..]).Some? {
      assert [] + Marked(clean[12..]).value == Marked(clean[12..]).value;
    }
    if |clean| == 12 {
      assert clean[12..] == [];
      assert Marked([]) == Some([]) && !Found([]) by { Nothing(); }
    }
  }

  lemma Nothing()
    ensures Marked([]) == Some([]) && !Found([])
  {
  }

  lemma MarkedCases(d: bytes)
    requires |d| >= 8
    ensures 8 + Size(d) > |d| ==> Marked(d) == None
    ensures 8 + Size(d) <= |d| && Extent(d) >= |d| ==>
              Marked(d) == Some(Flagged(d)) && (Found(d) <==> IsFlags(d[..4], Size(d)))
    ensures Extent(d) < |d| ==>
              && Marked(d) == Join(Flagged(d)[..Extent(d)], Marked(d[Extent(d)..]))
              && (Found(d) <==> IsFlags(d[..4], Size(d)) || Found(d[Extent(d)..]))
  {
    hide Get32;
  }

  /** One turn of the loop. */
  lemma Turn(clean: bytes, out: bytes, at: nat, found: bool, next: bytes)
    requires Progress(clean, out, at, found) && at + 8 <= |out|
    requires var d := clean[at..];
             8 + Size(d) <= |d| && next == (if IsFlags(d[..4], Size(d)) then out[at + 8 := SetExif(out[at + 8])] else out)
    ensures var d := clean[at..];
            Progress(clean, next, at + Extent(d), found || IsFlags(d[..4], Size(d)))
  {
    hide Marked, Found, Get32, SetExif, Size, Extent;
    var d := clean[at..];
    var n := Extent(d);
    ExtentIs(d);
    MarkedCases(d);
    FlaggedTail(clean, out, at, next);
    if n >= |d| {
      assert out[12..at] + next[at..] == next[12..];
    } else {
      assert clean[at + n..] == d[n..];
      assert next[at..][..n] == next[at..at + n] && next[12..at + n] == next[12..at] + next[at..at + n];
      if Marked(d[n..]).Some? {
        Assoc(next[12..at], next[at..at + n], Marked(d[n..]).value);
      }
      assert next[at + n..] == next[at..][n..];
    }
  }

  lemma FlaggedTail(clean: bytes, out: bytes, at: nat, next: bytes)
    requires 12 <= at <= at + 8 <= |clean| == |out| && out[at..] == clean[at..]
    requires var d := clean[at..];
             8 + Size(d) <= |d| && next == (if IsFlags(d[..4], Size(d)) then out[at + 8 := SetExif(out[at + 8])] else out)
    ensures |next| == |out| && next[..at] == out[..at] && next[at..] == Flagged(clean[at..])
    ensures next[..12] == out[..12] && next[12..at] == out[12..at]
    ensures forall n :: Extent(clean[at..]) <= n <= |clean| - at ==> next[at..][n..] == clean[at..][n..]
  {
    hide SetExif, Get32;
    assert out[at + 8..] == clean[at..][8..];
    assert next[..12] == next[..at][..12] && out[..12] == out[..at][..12];
    assert next[12..at] == next[..at][12..] && out[12..at] == out[..at][12..];
  }

  lemma SizeAt(clean: bytes, out: bytes, at: nat, found: bool)
    requires Progress(clean, out, at, found) && at + 8 <= |out|
    ensures var d := clean[at..];
            && |d| >= 8 && out[at..at + 4] == d[..4] && out[at + 4..at + 8] == d[4..8]
            && Size(d) == Get32(Little, out[at + 4..at + 8]) && Extent(d) == 8 + Size(d) + Size(d) % 2
  {
    hide Get32, Marked, Found;
    assert out[at..at + 4] == out[at..][..4] && out[at + 4..at + 8] == out[at..][4..8];
  }

  lemma Fails(clean: bytes, out: bytes, at: nat, found: bool)
    requires Progress(clean, out, at, found) && at + 8 <= |out| && 8 + Size(clean[at..]) > |clean| - at
    ensures Marked(clean[12..]).None?
  {
    hide Found, Get32;
  }

  lemma Ends(clean: bytes, out: bytes, at: nat, found: bool)
    requires Progress(clean, out, at, found) && at + 8 > |out|
    ensures Marked(clean[12..]) == Some(out[12..]) && Found(clean[12..]) == found && out[..12] == clean[..12]
  {
    if at < |out| {
      assert Marked(clean[at..]) == Some(clean[at..]);
      assert out[12..at] + out[at..] == out[12..];
    }
  }

  lemma Appended(clean: bytes, body: bytes, block: bytes)
    requires LooksLike(clean)
    ensures var out := clean[..12] + body + (EXIF + Put32(Little, |block|) + block);
            var padded: bytes := if |block| % 2 != 0 then out + [0] else out;
            padded[..4] + Put32(Little, |padded| - 8) + padded[8..] == Container(body + PrintChunk(BlockChunk(block)))
  {
    hide Put32, Container;
    var chunk := EXIF + Put32(Little, |block|) + block;
    assert Zeros(0) == [] && Zeros(1) == [0];
    assert PrintChunk(BlockChunk(block)) == if |block| % 2 != 0 then chunk + [0] else chunk;
    Assoc(body, chunk, [0]);
    Assoc(clean[..12], body, chunk);
    Assoc(clean[..12], body + chunk, [0]);
    ContainerIs(clean, body + PrintChunk(BlockChunk(block)));
  }

  method AttachWebPExif(clean: bytes, block: bytes) returns (r: Option<bytes>)
    requires LooksLike(clean)
    ensures r == ToWebP(clean, block)
  {
    hide Get32, Put32, Marked, Found, SetExif, Progress, Container;
    var out: bytes := clean;
    var found := false;
    var at := 12;
    Begin(clean);
    while at + 8 <= |out|
      invariant at >= 12 && Progress(clean, out, at, found) && |out| == |clean|
      decreases |out| - at
    {
      ghost var d := clean[at..];
      SizeAt(clean, out, at, found);
      var size := Get32(Little, out[at + 4..at + 8]);
      if at + 8 + size > |out| {
        Fails(clean, out, at, found);
        return None;
      }
      ghost var was, earlier := out, found;
      if out[at..at + 4] == VP8X && size == 10 {
        out := out[at + 8 := SetExif(out[at + 8])];
        found := true;
      }
      Turn(clean, was, at, earlier, out);
      at := at + 8 + size + size % 2;
    }
    Ends(clean, out, at, found);
    if !found {
      return None;
    }
    var chunk := EXIF + Put32(Little, |block|) + block;
    ghost var body := out[12..];
    assert out == clean[..12] + body;
    out := out + chunk;
    if |block| % 2 != 0 {
      out := out + [0];
    }
    Appended(clean, body, block);
    out := out[..4] + Put32(Little, |out| - 8) + out[8..];
    return Some(out);
  }

  // ---- the walk over the chunks ----------------------------------------------------------------------------------

  function MarkChunk(c: Chunk): (r: Chunk)
    ensures |r.body| == |c.body| && r.kind == c.kind && r.pad == c.pad
  {
    if IsFlags(c.kind, |c.body|) then c.(body := c.body[0 := SetExif(c.body[0])]) else c
  }

  function Mark(cs: seq<Chunk>): seq<Chunk> { if cs == [] then [] else [MarkChunk(cs[0])] + Mark(cs[1..]) }

  predicate HasFlags(cs: seq<Chunk>) { cs != [] && (IsFlags(cs[0].kind, |cs[0].body|) || HasFlags(cs[1..])) }

  lemma FlaggedChunk(c: Chunk, rest: bytes)
    requires ChunkOk(c)
    ensures var d := PrintChunk(c) + rest;
            |d| >= 8 && 8 + Size(d) <= |d| && Flagged(d) == PrintChunk(MarkChunk(c)) + rest
  {
    hide Put32, Get32, SetExif;
    HeadOfPrint(c, rest);
    var d := PrintChunk(c) + rest;
    assert d[..4] == c.kind;
    if IsFlags(c.kind, |c.body|) {
      assert d[8] == c.body[0];
      assert d[8 := SetExif(d[8])] == PrintChunk(MarkChunk(c)) + rest;
    }
  }

  /** The bytes walked over are the chunks walked over. */
  lemma {:induction false} MarkedIsMark(cs: seq<Chunk>)
    requires AllOk(cs)
    ensures Marked(Print(cs)) == Some(Print(Mark(cs))) && (Found(Print(cs)) <==> HasFlags(cs))
  {
    hide PrintChunk, Get32, SetExif, MarkChunk, Flagged, Extent, Size;
    if cs == [] {
      Nothing();
    } else {
      var c, rest := cs[0], Print(cs[1..]);
      var d := PrintChunk(c) + rest;
      HeadOfPrint(c, rest);
      FlaggedChunk(c, rest);
      MarkedCases(d);
      MarkedIsMark(cs[1..]);
      KindOfPrint(c, rest);
      assert ([MarkChunk(c)] + Mark(cs[1..]))[1..] == Mark(cs[1..]);
      SameLength(c);
      assert (PrintChunk(MarkChunk(c)) + rest)[..|PrintChunk(c)|] == PrintChunk(MarkChunk(c));
      if rest == [] {
        NoPrint(cs[1..]);
        assert PrintChunk(MarkChunk(c)) + [] == PrintChunk(MarkChunk(c));
      }
    }
  }

  lemma SameLength(c: Chunk)
    ensures |PrintChunk(MarkChunk(c))| == |PrintChunk(c)|
  {
    hide Put32, SetExif;
  }

  lemma KindOfPrint(c: Chunk, rest: bytes)
    requires ChunkOk(c)
    ensures (PrintChunk(c) + rest)[..4] == c.kind
  {
    hide Put32;
  }

  lemma NoPrint(cs: seq<Chunk>)
    requires AllOk(cs) && Print(cs) == []
    ensures cs == []
  {
    if cs != [] {
      PrintIsLong(cs);
    }
  }

  lemma PrintIsLong(cs: seq<Chunk>)
    requires AllOk(cs) && cs != []
    ensures |Print(cs)| >= 8
  {
    hide Put32;
    assert |PrintChunk(cs[0])| >= 8;
  }

  lemma {:induction false} KeepUnmarks(cs: seq<Chunk>)
    requires AllOk(cs) && Keep(cs) == cs && (forall c :: c in cs ==> !Dropped(c.kind) && Clean(c) == c)
    ensures AllOk(Mark(cs)) && Keep(Mark(cs)) == cs && |Print(Mark(cs))| == |Print(cs)|
  {
    hide SetExif, ClearFlags, PrintChunk, ChunkOk, Clean, MarkChunk, Dropped;
    if cs != [] {
      var c, m := cs[0], Mark(cs[1..]);
      assert c in cs;
      Unmarked(c);
      SameLength(c);
      assert Keep(cs) == [c] + Keep(cs[1..]);
      assert Keep(cs[1..]) == cs[1..];
      KeepUnmarks(cs[1..]);
      assert ([MarkChunk(c)] + m)[1..] == m;
    }
  }

  lemma Unmarked(c: Chunk)
    requires Clean(c) == c
    ensures Clean(MarkChunk(c)) == c && (ChunkOk(c) ==> ChunkOk(MarkChunk(c)))
  {
    hide SetExif, ClearFlags;
    if IsFlags(c.kind, |c.body|) {
      FlagBits(c.body[0]);
      assert ClearFlags(c.body[0]) == c.body[0];
      assert MarkChunk(c).body[0 := c.body[0]] == c.body;
    }
  }

  lemma {:induction false} KeepJoined(xs: seq<Chunk>, c: Chunk)
    requires AllOk(xs) && ChunkOk(c)
    ensures AllOk(xs + [c]) && Print(xs + [c]) == Print(xs) + PrintChunk(c)
  {
    hide PrintChunk, ChunkOk;
    if xs == [] {
      assert [c][1..] == [] && xs + [c] == [c];
    } else {
      assert (xs + [c])[1..] == xs[1..] + [c];
      KeepJoined(xs[1..], c);
      Assoc(PrintChunk(xs[0]), Print(xs[1..]), PrintChunk(c));
    }
  }

  /** The chunks of a file with a block attached: the same ones, flagged, and the block behind them. */
  lemma AttachedChunks(cs: seq<Chunk>, block: bytes)
    requires AllOk(cs) && Keep(cs) == cs && (forall c :: c in cs ==> !Dropped(c.kind) && Clean(c) == c)
    requires |block| <= TiffFilter.LIMIT
    ensures var body := Print(Mark(cs)) + PrintChunk(BlockChunk(block));
            && Parse(body) == Some(Mark(cs) + [BlockChunk(block)]) && Keep(Parse(body).value) == cs
            && |body| == |Print(cs)| + 8 + |block| + |block| % 2
  {
    hide Put32, Print, Parse, Keep, Mark, ClearFlags, SetExif;
    var c := BlockChunk(block);
    KeepUnmarks(cs);
    KeepJoined(Mark(cs), c);
    ParsePrint(Mark(cs) + [c]);
    KeepAppend(Mark(cs), c);
    assert cs + [] == cs;
  }

  lemma PrintsWhole(cs: seq<Chunk>)
    requires |Print(cs)| + 4 < U32
    ensures Container(Print(cs))[12..] == Print(cs) && LooksLike(Container(Print(cs)))
  {
    hide Put32, Print;
  }

  /** The block is attached exactly when there is a flag chunk to announce it. */
  lemma AttachNeedsFlags(cs: seq<Chunk>, block: bytes)
    requires AllOk(cs) && |Print(cs)| + 4 < U32
    ensures ToWebP(Container(Print(cs)), block)
            == if HasFlags(cs) then Some(Container(Print(Mark(cs)) + PrintChunk(BlockChunk(block)))) else None
  {
    hide Container, Print, Mark, Marked, Found, PrintChunk;
    PrintsWhole(cs);
    MarkedIsMark(cs);
  }

  /** Stripping a file with an attached block gives the stripped file back if and only if the file's
      size still fits the RIFF header: the flag is cleared again, the size repaired, the block gone. */
  lemma WebPBlockIsStripped(cs: seq<Chunk>, block: bytes)
    requires AllOk(cs) && Keep(cs) == cs && (forall c :: c in cs ==> !Dropped(c.kind) && Clean(c) == c)
    requires |Print(cs)| + 4 < U32 && |block| <= TiffFilter.LIMIT && HasFlags(cs)
    ensures var clean := Container(Print(cs));
            var out := ToWebP(clean, block);
            out.Some? && (Stripped(out.value) == Some(clean) <==> |out.value| - 8 < U32)
  {
    hide Container, Print, Parse, Keep, Mark, PrintChunk, Get32, Put32, AllOk, Body;
    AttachNeedsFlags(cs, block);
    AttachedChunks(cs, block);
    var body := Print(Mark(cs)) + PrintChunk(BlockChunk(block));
    ContainerLength(body);
    ContainerLength(Print(cs));
    if |body| + 4 < U32 {
      BodyOfContainer(body);
    } else {
      WrappedBody(body);
      StrippedIsShorter(Container(body));
    }
  }

  lemma ContainerLength(body: bytes)
    ensures |Container(body)| == 12 + |body| && LooksLike(Container(body))
  {
    hide Put32;
  }

  /** A size that wrapped leaves almost nothing of the body. */
  lemma WrappedBody(body: bytes)
    requires U32 <= |body| + 4 < 2 * U32
    ensures |Body(Container(body))| <= |body| - U32 + 4 && LooksLike(Container(body))
  {
    hide Put32, Get32;
    var o := Container(body);
    Get32Put32(Little, |body| + 4);
    assert o[4..8] == Put32(Little, |body| + 4);
    Remainder(|body| + 4);
  }

  lemma Remainder(n: nat)
    requires U32 <= n < 2 * U32
    ensures n % U32 == n - U32
  {
  }

  lemma StrippedIsShorter(d: bytes)
    requires LooksLike(d)
    ensures Stripped(d).Some? ==> |Stripped(d).value| <= 12 + |Body(d)|
  {
    hide Parse, Print, Keep, Body, Container;
    if Stripped(d).Some? {
      ParseIsPrint(Body(d));
      KeepOk(Parse(Body(d)).value);
      ContainerLength(Print(Keep(Parse(Body(d)).value)));
    }
  }
}
