/** Putting a rebuilt block back into a stripped container: the three branches of Filter in
    internal/metadata/filter.go and attachWebPExif. */
module Attach {
  import opened Prelude
  import opened Bytes
  import Jpeg
  import Png
  import TiffFilter

  const EXIF_HEADER: bytes := [69, 120, 105, 102, 0, 0]

  // ---- JPEG --------------------------------------------------------------------------------------------------

  function ToJpeg(clean: bytes, block: bytes): bytes
    requires |clean| >= 2
  {
    var payload := EXIF_HEADER + block;
    clean[..2] + [0xFF, Jpeg.APP1] + Put16(Big, |payload| + 2) + payload + clean[2..]
  }

  /** The block becomes one APP1 segment, its 16-bit length does not wrap, and stripping drops it
      again: the rest is read exactly as it was without it. */
  lemma JpegBlockIsStripped(clean: bytes, block: bytes)
    requires Jpeg.LooksLike(clean) && |block| <= TiffFilter.LIMIT
    ensures var out := ToJpeg(clean, block);
            && Jpeg.LooksLike(out) && Get16(Big, out[4..6]) == |block| + 8
            && Jpeg.Parse(out[2..]) == Jpeg.Prepend([Jpeg.Segment(Jpeg.APP1, EXIF_HEADER + block)], Jpeg.Parse(clean[2..]))
            && Jpeg.Stripped(out) == Jpeg.Stripped(clean)
  {
    hide Jpeg.Parse, Jpeg.Print, Put16, Get16;
    var payload, out := EXIF_HEADER + block, ToJpeg(clean, block);
    var x := Jpeg.Segment(Jpeg.APP1, payload);
    assert out[4..6] == Put16(Big, |payload| + 2);
    Get16Put16(Big, |payload| + 2);
    assert out[2..] == Jpeg.PrintItem(x) + clean[2..];
    Jpeg.ParseSegment(Jpeg.APP1, payload, clean[2..]);
    if Jpeg.Parse(clean[2..]).Some? {
      var xs := Jpeg.Parse(clean[2..]).value;
      assert ([x] + xs)[1..] == xs;
      assert Jpeg.Keep([x] + xs) == [] + Jpeg.Keep(xs) == Jpeg.Keep(xs);
    }
  }

  // ---- PNG ---------------------------------------------------------------------------------------------------

  /** The header and the space of a 13-byte IHDR chunk, where the block goes. */
  const IHDR_END: nat := 33

  function ToPng(clean: bytes, block: bytes, crc: bytes -> nat): Option<bytes> {
    if |clean| < IHDR_END || clean[12..16] != Png.IHDR then None
    else
      var chunk := Png.EXIF + block;
      Some(clean[..IHDR_END] + Put32(Big, |block|) + chunk + Put32(Big, crc(chunk)) + clean[IHDR_END..])
  }

  function BlockChunk(block: bytes, crc: bytes -> nat): Png.Chunk {
    Png.Chunk(Png.EXIF, block, Put32(Big, crc(Png.EXIF + block)))
  }

  /** Some of the chunks end exactly n bytes in. */
  ghost predicate Boundary(cs: seq<Png.Chunk>, n: nat) {
    exists k: nat :: k <= |cs| && |Png.Print(cs[..k])| == n
  }

  lemma {:induction false} PrintJoined(xs: seq<Png.Chunk>, ys: seq<Png.Chunk>)
    ensures Png.Print(xs + ys) == Png.Print(xs) + Png.Print(ys)
    ensures Png.Keep(xs + ys) == Png.Keep(xs) + Png.Keep(ys)
  {
    hide Png.PrintChunk, Png.DROPPED;
    if xs == [] {
      assert xs + ys == ys;
    } else {
      assert (xs + ys)[1..] == xs[1..] + ys;
      PrintJoined(xs[1..], ys);
      Assoc(Png.PrintChunk(xs[0]), Png.Print(xs[1..]), Png.Print(ys));
    }
  }

  lemma {:induction false} CompleteWithin(xs: seq<Png.Chunk>, c: Png.Chunk, ys: seq<Png.Chunk>)
    requires Png.Complete(xs + ys) && ys != [] && Png.ChunkOk(c) && c.kind != Png.IEND
    ensures Png.Complete(xs + [c] + ys)
    decreases |xs|
  {
    if xs == [] {
      assert xs + ys == ys && ([c] + ys)[1..] == ys && xs + [c] + ys == [c] + ys;
    } else {
      assert (xs + ys)[1..] == xs[1..] + ys;
      assert (xs + [c] + ys)[1..] == xs[1..] + [c] + ys;
      CompleteWithin(xs[1..], c, ys);
    }
  }

  /** A block put between two chunks is one more chunk; behind the last it is not part of the image. */
  lemma PngBlockIsStripped(cs: seq<Png.Chunk>, block: bytes, crc: bytes -> nat)
    requires Png.Complete(cs) && Png.Keep(cs) == cs && |block| <= TiffFilter.LIMIT && Boundary(cs, IHDR_END - 8)
    ensures var out := ToPng(Png.SIGNATURE + Png.Print(cs), block, crc);
            out.Some? ==> Png.Stripped(out.value) == Some(Png.SIGNATURE + Png.Print(cs))
  {
    hide Png.Print, Png.Parse, Png.Keep, Png.Complete, Png.PrintChunk, Put32;
    var clean := Png.SIGNATURE + Png.Print(cs);
    var k: nat :| k <= |cs| && |Png.Print(cs[..k])| == IHDR_END - 8;
    if ToPng(clean, block, crc).Some? {
      PngSplit(cs, k, block, crc);
      var out := ToPng(clean, block, crc).value;
      if k == |cs| {
        Png.ParsePrint(cs, Png.PrintChunk(BlockChunk(block, crc)));
      } else {
        var c := BlockChunk(block, crc);
        assert cs[..k] + cs[k..] == cs;
        CompleteWithin(cs[..k], c, cs[k..]);
        Png.ParsePrint(cs[..k] + [c] + cs[k..], []);
        DroppedWithin(cs[..k], c, cs[k..]);
        assert out[8..] + [] == out[8..];
      }
    }
  }

  lemma DroppedWithin(xs: seq<Png.Chunk>, c: Png.Chunk, ys: seq<Png.Chunk>)
    requires c.kind in Png.DROPPED
    ensures Png.Keep(xs + [c] + ys) == Png.Keep(xs + ys)
  {
    hide Png.PrintChunk;
    PrintJoined(xs + [c], ys);
    PrintJoined(xs, [c]);
    PrintJoined(xs, ys);
    assert [c][1..] == [] && Png.Keep([c]) == [];
  }

  lemma PngSplit(cs: seq<Png.Chunk>, k: nat, block: bytes, crc: bytes -> nat)
    requires k <= |cs| && |Png.Print(cs[..k])| == IHDR_END - 8
    requires ToPng(Png.SIGNATURE + Png.Print(cs), block, crc).Some?
    ensures var out := ToPng(Png.SIGNATURE + Png.Print(cs), block, crc).value;
            && out[..8] == Png.SIGNATURE && |out| >= 8
            && out[8..] == Png.Print(cs[..k] + [BlockChunk(block, crc)] + cs[k..])
            && (k == |cs| ==> out[8..] == Png.Print(cs) + Png.PrintChunk(BlockChunk(block, crc)))
  {
    hide Png.Print, Put32, Png.Keep;
    var c := BlockChunk(block, crc);
    var clean := Png.SIGNATURE + Png.Print(cs);
    assert cs[..k] + cs[k..] == cs;
    PrintJoined(cs[..k], cs[k..]);
    PrintJoined(cs[..k] + [c], cs[k..]);
    PrintJoined(cs[..k], [c]);
    OneChunk(c);
    assert clean[..IHDR_END] == Png.SIGNATURE + Png.Print(cs[..k]);
    assert clean[IHDR_END..] == Png.Print(cs[k..]);
    PngParts(Png.Print(cs[..k]), Put32(Big, |block|), Png.EXIF, block, c.crc, Png.Print(cs[k..]));
    if k == |cs| {
      assert cs[..k] == cs && cs[k..] == [];
      NoChunks();
    }
  }

  lemma PngParts(front: bytes, size: bytes, kind: bytes, block: bytes, crc: bytes, back: bytes)
    ensures Png.SIGNATURE + front + size + (kind + block) + crc + back
            == Png.SIGNATURE + (front + (size + kind + block + crc) + back)
    ensures (front + (size + kind + block + crc)) + [] == front + (size + kind + block + crc)
  {
  }

  lemma OneChunk(c: Png.Chunk)
    ensures Png.Print([c]) == Png.PrintChunk(c)
  {
    hide Png.PrintChunk;
    assert [c][1..] == [];
  }

  lemma NoChunks()
    ensures Png.Print([]) == []
  {
  }

  /** The boundary is there when the first chunk has the 13 bytes the PNG specification gives IHDR. */
  lemma ThirteenBytesAreABoundary(cs: seq<Png.Chunk>)
    requires Png.Complete(cs) && |cs[0].body| == 13
    ensures Boundary(cs, IHDR_END - 8)
  {
    hide Png.Print, Put32;
    OneChunk(cs[0]);
    assert cs[..1] == [cs[0]];
    assert |Png.Print(cs[..1])| == IHDR_END - 8;
  }
}
