/** Strip and Filter of internal/metadata: the dispatch over the formats, the search for Exif
    payloads, and one category of them put back into the stripped file. */
module Filter {
  import opened Prelude
  import opened Bytes
  import Jpeg
  import Png
  import WebP
  import Gif
  import Tiff
  import TiffFilter
  import TiffMeaning
  import Attach
  import AttachWebP

  // ---- the formats -------------------------------------------------------------------------------------------

  datatype Format = JpegFile | PngFile | WebPFile | GifFile | BmpFile | OtherFile

  predicate LooksLikeBmp(d: bytes) { |d| >= 2 && d[0] == 66 && d[1] == 77 }

  function Sniff(d: bytes): Format {
    if Jpeg.LooksLike(d) then JpegFile
    else if Png.LooksLike(d) then PngFile
    else if WebP.LooksLike(d) then WebPFile
    else if Gif.LooksLike(d) then GifFile
    else if LooksLikeBmp(d) then BmpFile
    else OtherFile
  }

  /** stripBMP: bytes past the size in the header are somebody's addition. */
  function StrippedBmp(d: bytes): Option<bytes> {
    if |d| < 6 then None
    else
      var size := Get32(Little, d[2..6]);
      Some(if 14 <= size < |d| then d[..size] else d)
  }

  function Stripped(d: bytes): Option<bytes> {
    match Sniff(d)
    case JpegFile => Jpeg.Stripped(d)
    case PngFile => Png.Stripped(d)
    case WebPFile => WebP.Stripped(d)
    case GifFile => Gif.Stripped(d)
    case BmpFile => StrippedBmp(d)
    case OtherFile => None
  }

  method Strip(d: bytes) returns (r: Option<bytes>)
    ensures r == Stripped(d)
  {
    match Sniff(d)
    case JpegFile => r := Jpeg.Strip(d);
    case PngFile => r := Png.Strip(d);
    case WebPFile => r := WebP.Strip(d);
    case GifFile => r := Gif.Strip(d);
    case BmpFile => r := StrippedBmp(d);
    case OtherFile => r := None;
  }

  lemma BmpStripsOnce(d: bytes)
    requires StrippedBmp(d).Some?
    ensures StrippedBmp(StrippedBmp(d).value) == StrippedBmp(d)
    ensures LooksLikeBmp(d) ==> LooksLikeBmp(StrippedBmp(d).value)
  {
    hide Get32;
    var o := StrippedBmp(d).value;
    assert o[2..6] == d[2..6];
  }

  /** What a bitmap declares is all that stays of it; a size below its header or beyond the data is not
      believed. */
  lemma BmpIsCut(d: bytes)
    requires |d| >= 6
    ensures var a: nat, b: nat, c: nat, e: nat := d[2], d[3], d[4], d[5];
            var size := a + 0x100 * b + 0x1_0000 * c + 0x100_0000 * e;
            StrippedBmp(d) == Some(if 14 <= size && size < |d| then d[..size] else d)
  {
    var b := d[2..6];
    assert b[0] == d[2] && b[1] == d[3] && b[2] == d[4] && b[3] == d[5];
  }

  lemma FormatsDiffer(d: bytes)
    ensures Jpeg.LooksLike(d) ==> Sniff(d) == JpegFile
    ensures Png.LooksLike(d) ==> Sniff(d) == PngFile
    ensures WebP.LooksLike(d) ==> Sniff(d) == WebPFile
    ensures Gif.LooksLike(d) ==> Sniff(d) == GifFile
    ensures LooksLikeBmp(d) ==> Sniff(d) == BmpFile
  {
    if Png.LooksLike(d) {
      assert d[0] == d[..8][0] == 0x89;
    }
    if WebP.LooksLike(d) {
      assert d[0] == d[..4][0] == 82;
    }
    if Gif.LooksLike(d) {
      assert d[0] == d[..6][0] == 71;
    }
  }

  /** The formats by their first bytes. */
  lemma MagicIsExact(d: bytes)
    ensures Sniff(d) == JpegFile <==> |d| >= 2 && d[..2] == [0xFF, 0xD8]
    ensures Sniff(d) == PngFile <==> |d| >= 8 && d[..8] == [137, 80, 78, 71, 13, 10, 26, 10]
    ensures Sniff(d) == WebPFile <==> |d| >= 12 && d[..4] == [82, 73, 70, 70] && d[8..12] == [87, 69, 66, 80]
    ensures Sniff(d) == GifFile <==> |d| >= 6 && (d[..6] == [71, 73, 70, 56, 55, 97] || d[..6] == [71, 73, 70, 56, 57, 97])
    ensures Sniff(d) == BmpFile <==> |d| >= 2 && d[..2] == [66, 77]
  {
    FormatsDiffer(d);
    if |d| >= 2 {
      assert d[..2] == [d[0], d[1]];
    }
  }

  /** A stripped file is of the format it was. */
  lemma FormatIsKept(d: bytes)
    requires Stripped(d).Some?
    ensures Sniff(Stripped(d).value) == Sniff(d)
  {
    hide Jpeg.Parse, Png.Parse, WebP.Parse, Gif.Parse, Get32;
    var o := Stripped(d).value;
    FormatsDiffer(o);
    match Sniff(d)
    case JpegFile => assert Jpeg.LooksLike(o);
    case PngFile => assert Png.LooksLike(o) by { assert o[..8] == Png.SIGNATURE; }
    case WebPFile => WebP.StripKeepsThePicture(d);
    case GifFile => Gif.StripKeepsThePicture(d);
    case BmpFile => BmpStripsOnce(d);
  }

  // ---- where the Exif payloads are -----------------------------------------------------------------------------

  const PREFIX: bytes := Attach.EXIF_HEADER

  /** bytes.TrimPrefix. */
  function Trim(b: bytes): bytes { if StartsWith(b, PREFIX) then b[|PREFIX|..] else b }

  predicate ExifKind(kind: bytes) { kind == Png.EXIF || kind == WebP.EXIF }

  /** The chunk headers of the two containers: WebP has the type first, PNG the size. */
  function SizeIn(padded: bool, d: bytes): nat
    requires |d| >= 8
  {
    if padded then Get32(Little, d[4..8]) else Get32(Big, d[..4])
  }

  function KindIn(padded: bool, d: bytes): bytes
    requires |d| >= 8
  {
    if padded then d[..4] else d[4..8]
  }

  function Trailer(padded: bool): nat { if padded then 0 else 4 }

  function Step(padded: bool, d: bytes): (n: nat)
    requires |d| >= 8
    ensures n >= 8
  {
    8 + SizeIn(padded, d) + Trailer(padded) + (if padded then SizeIn(padded, d) % 2 else 0)
  }

  predicate Whole(padded: bool, d: bytes) { |d| >= 8 && 8 + SizeIn(padded, d) + Trailer(padded) <= |d| }

  function Here(padded: bool, d: bytes): seq<bytes>
    requires Whole(padded, d)
  {
    if ExifKind(KindIn(padded, d)) then [Trim(d[8..8 + SizeIn(padded, d)])] else []
  }

  /** The payloads of the chunks from the front of d on. */
  function Payloads(padded: bool, d: bytes): seq<bytes>
    decreases |d|
  {
    if !Whole(padded, d) then []
    else if KindIn(padded, d) == Png.IEND || Step(padded, d) > |d| then Here(padded, d)
    else Here(padded, d) + Payloads(padded, d[Step(padded, d)..])
  }

  /** imageTIFFs; what the JPEG scanner finds is not computed here. */
  function ImageTiffs(d: bytes, scanned: seq<bytes>): seq<bytes> {
    match Sniff(d)
    case JpegFile => scanned
    case PngFile => Payloads(false, d[8..])
    case WebPFile => Payloads(true, d[12..])
    case _ => []
  }

  ghost predicate Progress(padded: bool, data: bytes, begin: nat, start: nat, blocks: seq<bytes>) {
    && begin <= |data|
    && Payloads(padded, data[begin..]) == blocks + (if start <= |data| then Payloads(padded, data[start..]) else [])
  }

  lemma Turn(padded: bool, data: bytes, begin: nat, start: nat, blocks: seq<bytes>)
    requires Progress(padded, data, begin, start, blocks) && start + 8 <= |data|
    ensures var d := data[start..];
            && (!Whole(padded, d) ==> Payloads(padded, data[begin..]) == blocks)
            && (Whole(padded, d) ==>
                  if KindIn(padded, d) == Png.IEND then Payloads(padded, data[begin..]) == blocks + Here(padded, d)
                  else Progress(padded, data, begin, start + Step(padded, d), blocks + Here(padded, d)))
  {
    hide Here, SizeIn, KindIn;
    var d := data[start..];
    assert blocks + [] == blocks;
    if Whole(padded, d) && start + Step(padded, d) <= |data| {
      assert data[start + Step(padded, d)..] == d[Step(padded, d)..];
      assert blocks + (Here(padded, d) + Payloads(padded, d[Step(padded, d)..]))
          == blocks + Here(padded, d) + Payloads(padded, d[Step(padded, d)..]);
    } else if Whole(padded, d) {
      assert blocks + Here(padded, d) + [] == blocks + Here(padded, d);
    }
  }

  /** A chunk's fields, where the loop reads them. */
  lemma TurnBytes(padded: bool, data: bytes, start: nat, sizeAt: nat, kindAt: nat)
    requires start + 8 <= |data| && sizeAt == (if padded then start + 4 else start) && kindAt == (if padded then start else start + 4)
    ensures var d := data[start..];
            var size := Get32(if padded then Little else Big, data[sizeAt..sizeAt + 4]);
            && KindIn(padded, d) == data[kindAt..kindAt + 4]
            && (Whole(padded, d) <==> start + 8 + size + Trailer(padded) <= |data|)
            && Step(padded, d) == 8 + size + Trailer(padded) + (if padded then size % 2 else 0)
            && (Whole(padded, d) ==>
                  Here(padded, d) == if ExifKind(KindIn(padded, d)) then [Trim(data[start + 8..start + 8 + size])] else [])
  {
    hide Get32, Trim;
    var d := data[start..];
    SliceOfTail(data, start, 0, 4);
    SliceOfTail(data, start, 4, 8);
    assert d[..4] == d[0..4];
    if Whole(padded, d) {
      SliceOfTail(data, start, 8, 8 + SizeIn(padded, d));
    }
  }

  lemma SliceOfTail(data: bytes, start: nat, a: nat, b: nat)
    requires a <= b && start + b <= |data|
    ensures data[start..][a..b] == data[start + a..start + b]
  {
    SliceWithin(data, start, |data| - start, a, b);
    assert data[start..start + (|data| - start)] == data[start..];
  }

  lemma NothingBehind(padded: bool, data: bytes, begin: nat, start: nat, blocks: seq<bytes>)
    requires Progress(padded, data, begin, start, blocks) && start + 8 > |data|
    ensures Payloads(padded, data[begin..]) == blocks
  {
    assert blocks + [] == blocks;
  }

  lemma NothingYet(padded: bool, data: bytes, begin: nat)
    requires begin <= |data|
    ensures Progress(padded, data, begin, begin, [])
  {
    hide Payloads;
    assert [] + Payloads(padded, data[begin..]) == Payloads(padded, data[begin..]);
  }

  method FindTiffs(data: bytes, scanned: seq<bytes>) returns (blocks: seq<bytes>)
    ensures blocks == ImageTiffs(data, scanned)
  {
    hide Get32, Payloads, Progress, Trim, Whole, Here, Step, KindIn, SizeIn;
    if Jpeg.LooksLike(data) {
      return scanned;
    }
    var start, trailer, padded := 8, 4, false;
    if WebP.LooksLike(data) {
      FormatsDiffer(data);
      start, trailer, padded := 12, 0, true;
    } else if !Png.LooksLike(data) {
      return [];
    }
    ghost var begin := start;
    blocks := [];
    NothingYet(padded, data, begin);
    while start + 8 <= |data|
      invariant Progress(padded, data, begin, start, blocks)
      decreases |data| - start
    {
      ghost var d := data[start..];
      var sizeAt, kindAt := start, start + 4;
      if padded {
        sizeAt, kindAt := start + 4, start;
      }
      TurnBytes(padded, data, start, sizeAt, kindAt);
      Turn(padded, data, begin, start, blocks);
      var size := Get32(if padded then Little else Big, data[sizeAt..sizeAt + 4]);
      var end := start + 8 + size;
      if end + trailer > |data| {
        break;
      }
      var kind := data[kindAt..kindAt + 4];
      ghost var before := blocks;
      if kind == Png.EXIF || kind == WebP.EXIF {
        blocks := blocks + [Trim(data[start + 8..end])];
      }
      assert before + [] == before;
      assert blocks == before + Here(padded, d);
      if kind == Png.IEND {
        return;
      }
      start := end + trailer;
      if padded {
        start := start + size % 2;
      }
    }
    if start + 8 > |data| {
      NothingBehind(padded, data, begin, start, blocks);
    }
  }

  // ---- Filter --------------------------------------------------------------------------------------------------

  /** The first source that leaves anything. */
  function FirstBlock(sources: seq<bytes>, camera: bool): Option<bytes> {
    if sources == [] then None
    else if TiffFilter.Filtered(sources[0], camera).Some? then TiffFilter.Filtered(sources[0], camera)
    else FirstBlock(sources[1..], camera)
  }

  function Attached(clean: bytes, block: bytes, crc: bytes -> nat): Option<bytes> {
    match Sniff(clean)
    case JpegFile => Some(Attach.ToJpeg(clean, block))
    case PngFile => Attach.ToPng(clean, block, crc)
    case WebPFile => AttachWebP.ToWebP(clean, block)
    case _ => Some(clean)
  }

  /** Filter. The checksum is whatever function it is; scanned is what the JPEG scanner found. */
  function Filtered(d: bytes, keepExif: bool, keepLocation: bool, scanned: seq<bytes>, crc: bytes -> nat): Option<bytes> {
    if keepExif && keepLocation then Some(d)
    else
      var clean, block := Stripped(d), FirstBlock(ImageTiffs(d, scanned), keepExif);
      if clean.None? || (!keepExif && !keepLocation) || block.None? then clean
      else Attached(clean.value, block.value, crc)
  }

  method FilterFile(d: bytes, keepExif: bool, keepLocation: bool, scanned: seq<bytes>, crc: bytes -> nat)
      returns (r: Option<bytes>)
    ensures r == Filtered(d, keepExif, keepLocation, scanned, crc)
  {
    hide Stripped, ImageTiffs, TiffFilter.Filtered, AttachWebP.Marked, AttachWebP.Found, Put16, Put32;
    if keepExif && keepLocation {
      return Some(d);
    }
    var clean := Strip(d);
    if clean.None? || (!keepExif && !keepLocation) {
      return clean;
    }
    var sources := FindTiffs(d, scanned);
    var block: Option<bytes>, i := None, 0;
    while i < |sources|
      invariant i <= |sources| && block.None?
      invariant FirstBlock(sources, keepExif) == FirstBlock(sources[i..], keepExif)
    {
      assert sources[i..][1..] == sources[i + 1..];
      block := TiffFilter.FilteredTiff(sources[i], keepExif);
      if block.Some? {
        break;
      }
      i := i + 1;
    }
    if block.None? {
      return clean;
    }
    var o := clean.value;
    FormatsDiffer(o);
    if Jpeg.LooksLike(o) {
      var payload := Attach.EXIF_HEADER + block.value;
      var out := o[..2];
      out := out + [0xFF, Jpeg.APP1];
      out := out + Put16(Big, |payload| + 2);
      out := out + payload;
      return Some(out + o[2..]);
    } else if Png.LooksLike(o) {
      if |o| < 33 || o[12..16] != Png.IHDR {
        return None;
      }
      var out := o[..33];
      out := out + Put32(Big, |block.value|);
      var chunk := Png.EXIF + block.value;
      out := out + chunk;
      out := out + Put32(Big, crc(chunk));
      return Some(out + o[33..]);
    } else if WebP.LooksLike(o) {
      r := AttachWebP.AttachWebPExif(o, block.value);
      return r;
    }
    return clean;
  }

  // ---- a filtered file strips to the same picture ----------------------------------------------------------------

  function Chunks(d: bytes): seq<Png.Chunk>
    requires Png.Stripped(d).Some?
  {
    Png.Keep(Png.Parse(d[8..]).value)
  }

  lemma {:induction false} BlocksAreShort(sources: seq<bytes>, camera: bool)
    requires FirstBlock(sources, camera).Some?
    ensures exists s :: s in sources && TiffFilter.Filtered(s, camera) == FirstBlock(sources, camera)
    ensures |FirstBlock(sources, camera).value| <= TiffFilter.LIMIT
  {
    hide TiffFilter.Layout;
    if TiffFilter.Filtered(sources[0], camera).None? {
      BlocksAreShort(sources[1..], camera);
      var s :| s in sources[1..] && TiffFilter.Filtered(s, camera) == FirstBlock(sources, camera);
      assert s in sources;
    } else {
      assert sources[0] in sources;
    }
  }

  /** Putting a block into a stripped file and stripping the result. */
  lemma AttachThenStrip(d: bytes, block: bytes, crc: bytes -> nat)
    requires Stripped(d).Some? && |block| <= TiffFilter.LIMIT && Attached(Stripped(d).value, block, crc).Some?
    ensures var clean := Stripped(d).value;
            var out := Attached(clean, block, crc).value;
            match Sniff(d)
            case JpegFile => Stripped(out) == Stripped(clean)
            case PngFile => Attach.Boundary(Chunks(d), 25) ==> Stripped(out) == Some(clean)
            case WebPFile => Stripped(out) == Some(clean) <==> |out| - 8 < U32
            case _ => out == clean
  {
    FormatIsKept(d);
    match Sniff(d)
    case JpegFile => JpegThenStrip(d, block);
    case PngFile => PngThenStrip(d, block, crc);
    case WebPFile => WebPThenStrip(d, block);
    case GifFile =>
    case BmpFile =>
  }

  lemma JpegThenStrip(d: bytes, block: bytes)
    requires Stripped(d).Some? && Sniff(d) == JpegFile && |block| <= TiffFilter.LIMIT
    ensures var clean := Stripped(d).value;
            |clean| >= 2 && Stripped(Attach.ToJpeg(clean, block)) == Stripped(clean)
  {
    hide Attach.ToJpeg, Jpeg.Stripped, Stripped;
    assert Sniff(Stripped(d).value) == JpegFile by { FormatIsKept(d); }
    var clean := Stripped(d).value;
    Attach.JpegBlockIsStripped(clean, block);
    FormatsDiffer(Attach.ToJpeg(clean, block));
    StrippedByFormat(clean);
    StrippedByFormat(Attach.ToJpeg(clean, block));
  }

  lemma StrippedByFormat(d: bytes)
    ensures Sniff(d) == JpegFile ==> Stripped(d) == Jpeg.Stripped(d)
    ensures Sniff(d) == PngFile ==> Stripped(d) == Png.Stripped(d)
    ensures Sniff(d) == WebPFile ==> Stripped(d) == WebP.Stripped(d)
    ensures Sniff(d) == GifFile ==> Stripped(d) == Gif.Stripped(d)
    ensures Sniff(d) == BmpFile ==> Stripped(d) == StrippedBmp(d)
    ensures Sniff(d) == OtherFile ==> Stripped(d).None?
  {
    hide Jpeg.Stripped, Png.Stripped, WebP.Stripped, Gif.Stripped, StrippedBmp;
  }

  lemma PngThenStrip(d: bytes, block: bytes, crc: bytes -> nat)
    requires Stripped(d).Some? && Sniff(d) == PngFile && |block| <= TiffFilter.LIMIT
    requires Attach.ToPng(Stripped(d).value, block, crc).Some?
    ensures Png.Stripped(d).Some? && Png.Complete(Chunks(d)) && Png.Keep(Chunks(d)) == Chunks(d)
    ensures Stripped(d).value == Png.SIGNATURE + Png.Print(Chunks(d))
    ensures var out := Attach.ToPng(Stripped(d).value, block, crc).value;
            Sniff(out) == PngFile
            && (Attach.Boundary(Chunks(d), 25) ==> Stripped(out) == Stripped(d))
  {
    hide Png.Print, Png.Keep, Png.Parse, Put32, Stripped, Png.Complete;
    StrippedByFormat(d);
    Png.ParseIsPrint(d[8..]);
    Png.KeepComplete(Png.Parse(d[8..]).value);
    var clean := Stripped(d).value;
    var out := Attach.ToPng(clean, block, crc).value;
    assert out[..8] == clean[..8] == Png.SIGNATURE;
    FormatsDiffer(out);
    StrippedByFormat(out);
    if Attach.Boundary(Chunks(d), 25) {
      Attach.PngBlockIsStripped(Chunks(d), block, crc);
    }
  }

  function WebPChunks(d: bytes): seq<WebP.Chunk>
    requires WebP.Stripped(d).Some?
  {
    WebP.Keep(WebP.Parse(WebP.Body(d)).value)
  }

  lemma WebPCleanParts(d: bytes)
    requires WebP.Stripped(d).Some?
    ensures var cs := WebPChunks(d);
            && WebP.AllOk(cs) && WebP.Keep(cs) == cs && (forall c :: c in cs ==> !WebP.Dropped(c.kind) && WebP.Clean(c) == c)
            && |WebP.Print(cs)| + 4 < U32 && WebP.Stripped(d) == Some(WebP.Container(WebP.Print(cs)))
  {
    hide WebP.Parse, WebP.Print, WebP.Keep, WebP.Clean, WebP.Container;
    WebP.ParseIsPrint(WebP.Body(d));
    WebP.KeepOk(WebP.Parse(WebP.Body(d)).value);
    WebP.StripKeepsThePicture(d);
    AttachWebP.ContainerLength(WebP.Print(WebPChunks(d)));
  }

  lemma WebPThenStrip(d: bytes, block: bytes)
    requires Stripped(d).Some? && Sniff(d) == WebPFile && |block| <= TiffFilter.LIMIT
    requires |Stripped(d).value| >= 12 && AttachWebP.ToWebP(Stripped(d).value, block).Some?
    ensures var out := AttachWebP.ToWebP(Stripped(d).value, block).value;
            Sniff(out) == WebPFile && (Stripped(out) == Stripped(d) <==> |out| - 8 < U32)
  {
    hide WebP.Print, WebP.Keep, WebP.Parse, Put32, Stripped, WebP.Stripped, WebP.Container, WebP.AllOk, AttachWebP.Marked, AttachWebP.Found;
    StrippedByFormat(d);
    WebPCleanParts(d);
    var cs := WebPChunks(d);
    AttachWebP.AttachNeedsFlags(cs, block);
    AttachWebP.WebPBlockIsStripped(cs, block);
    var out := AttachWebP.ToWebP(Stripped(d).value, block).value;
    AttachWebP.ContainerLength(WebP.Print(AttachWebP.Mark(cs)) + WebP.PrintChunk(AttachWebP.BlockChunk(block)));
    FormatsDiffer(out);
    StrippedByFormat(out);
  }

  /** Whenever Filter withholds a category and succeeds, stripping what it returns gives the stripped
      original: always for GIF and BMP, for JPEG exactly when the stripped file is one that strips to
      itself, for WebP exactly below the 32-bit size limit, and for PNG when a chunk ends where the
      block is put. */
  lemma FilterThenStrip(d: bytes, keepExif: bool, keepLocation: bool, scanned: seq<bytes>, crc: bytes -> nat)
    requires !(keepExif && keepLocation) && Filtered(d, keepExif, keepLocation, scanned, crc).Some?
    ensures Stripped(d).Some?
    ensures var out := Filtered(d, keepExif, keepLocation, scanned, crc).value;
            match Sniff(d)
            case JpegFile => Stripped(out) == Stripped(d) <==> Stripped(Stripped(d).value) == Stripped(d)
            case PngFile => Attach.Boundary(Chunks(d), 25) ==> Stripped(out) == Stripped(d)
            case WebPFile => Stripped(out) == Stripped(d) <==> |out| - 8 < U32
            case _ => Stripped(out) == Stripped(d)
  {
    hide Stripped, ImageTiffs, FirstBlock, Attached;
    var clean, out := Stripped(d).value, Filtered(d, keepExif, keepLocation, scanned, crc).value;
    var sources := ImageTiffs(d, scanned);
    if out != clean {
      BlocksAreShort(sources, keepExif);
      AttachThenStrip(d, FirstBlock(sources, keepExif).value, crc);
    } else {
      StripTwice(d);
    }
    if Sniff(d).GifFile? || Sniff(d).BmpFile? {
      StripTwice(d);
    }
  }

  lemma StripTwice(d: bytes)
    requires Stripped(d).Some?
    ensures !Sniff(d).JpegFile? ==> Stripped(Stripped(d).value) == Stripped(d)
    ensures Sniff(d).WebPFile? ==> |Stripped(d).value| - 8 < U32
  {
    hide Stripped, Png.Stripped, WebP.Stripped, Gif.Stripped, StrippedBmp;
    FormatIsKept(d);
    StrippedByFormat(d);
    StrippedByFormat(Stripped(d).value);
    match Sniff(d)
    case JpegFile =>
    case PngFile => Png.StripKeepsThePicture(d);
    case WebPFile => WebP.StripKeepsThePicture(d);
    case GifFile => Gif.StripKeepsThePicture(d);
    case BmpFile => BmpStripsOnce(d);
    case OtherFile =>
  }

  // ---- a block that was put in is found again --------------------------------------------------------------------

  lemma BlockIsNotPrefixed(d: bytes, camera: bool)
    requires TiffFilter.Filtered(d, camera).Some?
    ensures Trim(TiffFilter.Filtered(d, camera).value) == TiffFilter.Filtered(d, camera).value
  {
    hide TiffFilter.DirBytes, TiffFilter.Data, TiffFilter.OutsideAll;
    var b := TiffFilter.Filtered(d, camera).value;
    assert b[0] == TiffFilter.Head(Tiff.HeaderOrder(d).value)[0];
    assert |b| >= 6 ==> b[..6][0] == b[0];
    assert PREFIX[0] == 69;
  }

  lemma PngStep(c: Png.Chunk, rest: bytes)
    requires Png.ChunkOk(c)
    ensures var d := Png.PrintChunk(c) + rest;
            && Whole(false, d) && KindIn(false, d) == c.kind && Step(false, d) == |Png.PrintChunk(c)|
            && Here(false, d) == (if ExifKind(c.kind) then [Trim(c.body)] else []) && d[Step(false, d)..] == rest
  {
    hide Put32, Get32, Png.PrintChunk;
    Png.HeadOfPrint(c, rest);
  }

  lemma WebPStep(c: WebP.Chunk, rest: bytes)
    requires WebP.ChunkOk(c)
    ensures var d := WebP.PrintChunk(c) + rest;
            && Whole(true, d) && KindIn(true, d) == c.kind && Step(true, d) == |WebP.PrintChunk(c)|
            && Here(true, d) == (if ExifKind(c.kind) then [Trim(c.body)] else []) && d[Step(true, d)..] == rest
  {
    hide Put32, Get32, WebP.PrintChunk;
    WebP.HeadOfPrint(c, rest);
  }

  /** In a PNG whose IHDR has its 13 bytes, the block is the first payload the search finds. */
  lemma PngBlockIsFound(cs: seq<Png.Chunk>, block: bytes, crc: bytes -> nat)
    requires Png.Complete(cs) && |cs[0].body| == 13 && |block| <= TiffFilter.LIMIT && Trim(block) == block
    requires Attach.ToPng(Png.SIGNATURE + Png.Print(cs), block, crc).Some?
    ensures var out := Attach.ToPng(Png.SIGNATURE + Png.Print(cs), block, crc).value;
            var found := Payloads(false, out[8..]);
            |out| >= 8 && found != [] && found[0] == block
  {
    hide Png.Print, Png.PrintChunk, Put32, Payloads, Whole, Here, Step, KindIn, Trim;
    var clean := Png.SIGNATURE + Png.Print(cs);
    var c := Attach.BlockChunk(block, crc);
    Attach.OneChunk(cs[0]);
    assert cs[..1] == [cs[0]];
    ThirteenIsThirtyThree(cs[0]);
    Attach.PngSplit(cs, 1, block, crc);
    var ys := cs[1..];
    Attach.PrintJoined([cs[0]] + [c], ys);
    Attach.PrintJoined([cs[0]], [c]);
    Attach.OneChunk(c);
    var tail := Png.PrintChunk(c) + Png.Print(ys);
    Assoc(Png.PrintChunk(cs[0]), Png.PrintChunk(c), Png.Print(ys));
    PngStep(cs[0], tail);
    PngStep(c, Png.Print(ys));
    FirstKind(clean, cs);
    PayloadStep(false, Png.PrintChunk(cs[0]) + tail);
    PayloadStep(false, tail);
  }

  lemma ThirteenIsThirtyThree(c: Png.Chunk)
    requires Png.ChunkOk(c) && |c.body| == 13
    ensures |Png.PrintChunk(c)| == 25
  {
    hide Put32;
  }

  lemma FirstKind(clean: bytes, cs: seq<Png.Chunk>)
    requires Png.Complete(cs) && clean == Png.SIGNATURE + Png.Print(cs) && |clean| >= 33 && clean[12..16] == Png.IHDR
    ensures cs[0].kind == Png.IHDR
  {
    hide Put32;
    assert Png.Print(cs) == Png.PrintChunk(cs[0]) + Png.Print(cs[1..]);
    assert clean[12..16] == cs[0].kind;
  }

  lemma PayloadStep(padded: bool, d: bytes)
    requires Whole(padded, d)
    ensures KindIn(padded, d) == Png.IEND ==> Payloads(padded, d) == Here(padded, d)
    ensures KindIn(padded, d) != Png.IEND && Step(padded, d) <= |d| ==>
              Payloads(padded, d) == Here(padded, d) + Payloads(padded, d[Step(padded, d)..])
  {
    hide Whole, Here, Step, KindIn;
  }

  /** No chunk the search would take for a payload, or stop at. */
  predicate Plain(cs: seq<WebP.Chunk>) { forall c :: c in cs ==> !ExifKind(c.kind) && c.kind != Png.IEND }

  lemma {:induction false} WebPBlockIsFound(cs: seq<WebP.Chunk>, block: bytes)
    requires WebP.AllOk(cs) && Plain(cs) && |block| <= TiffFilter.LIMIT && Trim(block) == block
    ensures Payloads(true, WebP.Print(cs) + WebP.PrintChunk(AttachWebP.BlockChunk(block))) == [block]
    decreases |cs|
  {
    hide WebP.PrintChunk, Payloads, Whole, Here, Step, KindIn, Trim;
    var last := WebP.PrintChunk(AttachWebP.BlockChunk(block));
    if cs == [] {
      assert WebP.Print(cs) + last == last + [];
      WebPStep(AttachWebP.BlockChunk(block), []);
      PayloadStep(true, last + []);
      NoPayload(true);
    } else {
      assert cs[0] in cs;
      Assoc(WebP.PrintChunk(cs[0]), WebP.Print(cs[1..]), last);
      WebPStep(cs[0], WebP.Print(cs[1..]) + last);
      PayloadStep(true, WebP.PrintChunk(cs[0]) + (WebP.Print(cs[1..]) + last));
      WebPBlockIsFound(cs[1..], block);
    }
  }

  lemma NoPayload(padded: bool)
    ensures Payloads(padded, []) == []
  {
  }

  lemma {:induction false} MarkIsPlain(cs: seq<WebP.Chunk>)
    requires Plain(cs)
    ensures Plain(AttachWebP.Mark(cs))
  {
    hide AttachWebP.MarkChunk;
    if cs != [] {
      assert cs[0] in cs;
      MarkIsPlain(cs[1..]);
    }
  }

  /** Files whose blocks the search finds again: a PNG with a standard IHDR, a WebP without chunks of
      foreign kinds and within the size limit. */
  ghost predicate Standard(d: bytes, out: bytes) {
    match Sniff(d)
    case PngFile => Png.Stripped(d).Some? && Chunks(d) != [] && |Chunks(d)[0].body| == 13
    case WebPFile => WebP.Stripped(d).Some? && Plain(WebPChunks(d)) && |out| - 8 < U32
    case _ => false
  }

  /** The block put into a stripped file comes first among the payloads of the result. */
  lemma AttachedIsFound(d: bytes, block: bytes, scanned: seq<bytes>, crc: bytes -> nat)
    requires Stripped(d).Some? && |block| <= TiffFilter.LIMIT && Trim(block) == block
    requires Attached(Stripped(d).value, block, crc).Some?
    requires Standard(d, Attached(Stripped(d).value, block, crc).value)
    ensures var out := Attached(Stripped(d).value, block, crc).value;
            && Stripped(out) == Stripped(d)
            && ImageTiffs(out, scanned) != [] && ImageTiffs(out, scanned)[0] == block
  {
    hide Stripped, Png.Complete, Png.Print, Png.Keep, Png.Parse, WebP.Print, WebP.Keep, WebP.Parse, Payloads, Put32,
         Attach.ToPng, AttachWebP.ToWebP, WebP.Container, Trim, WebP.PrintChunk, AttachWebP.Mark, Attach.Boundary;
    FormatIsKept(d);
    StrippedByFormat(d);
    var out := Attached(Stripped(d).value, block, crc).value;
    AttachThenStrip(d, block, crc);
    if Sniff(d).PngFile? {
      PngThenStrip(d, block, crc);
      Attach.ThirteenBytesAreABoundary(Chunks(d));
      PngBlockIsFound(Chunks(d), block, crc);
    } else {
      WebPThenStrip(d, block);
      WebPCleanParts(d);
      var cs := WebPChunks(d);
      AttachWebP.AttachNeedsFlags(cs, block);
      AttachWebP.KeepUnmarks(cs);
      MarkIsPlain(cs);
      WebPBlockIsFound(AttachWebP.Mark(cs), block);
      BodyBehindHeader(WebP.Print(AttachWebP.Mark(cs)) + WebP.PrintChunk(AttachWebP.BlockChunk(block)));
    }
  }

  lemma BodyBehindHeader(body: bytes)
    ensures WebP.Container(body)[12..] == body
  {
    hide Put32;
  }

  /** A location block made from a payload, with the location its first readable entries give, which
      is its location when no tag of it is repeated. */
  ghost predicate MadeFrom(source: bytes, block: bytes) {
    && TiffFilter.Filtered(source, false) == Some(block)
    && Tiff.HeaderOrder(source).Some?
    && Tiff.TiffLocation(block)
       == TiffMeaning.MeaningOfFirst(Tiff.HeaderOrder(source).value, source, TiffMeaning.GpsSlots(source))
    && (TiffMeaning.NoneRepeated(TiffMeaning.GpsSlots(source)) ==> Tiff.TiffLocation(block) == Tiff.TiffLocation(source))
  }

  /** Filtering to one category, in a PNG or WebP that has a block for it: the rebuilt block is what a
      reader finds first, filtering again changes nothing, a camera-only file gives no location, and a
      location-only file gives the location of the payload the block was made from. */
  lemma FilterTwice(d: bytes, keepExif: bool, scanned: seq<bytes>, crc: bytes -> nat)
    requires Filtered(d, keepExif, !keepExif, scanned, crc).Some?
    requires FirstBlock(ImageTiffs(d, scanned), keepExif).Some?
    requires Standard(d, Filtered(d, keepExif, !keepExif, scanned, crc).value)
    ensures var out := Filtered(d, keepExif, !keepExif, scanned, crc).value;
            var found := ImageTiffs(out, scanned);
            && found != [] && Some(found[0]) == FirstBlock(ImageTiffs(d, scanned), keepExif)
            && Filtered(out, keepExif, !keepExif, scanned, crc) == Some(out)
            && (keepExif ==> Tiff.TiffLocation(found[0]) == Tiff.NOWHERE)
            && (!keepExif ==> exists s :: s in ImageTiffs(d, scanned) && MadeFrom(s, found[0]))
  {
    hide Stripped, ImageTiffs, Attached, TiffFilter.Filtered, Tiff.TiffLocation, Tiff.HeaderOrder, Trim, Standard;
    hide TiffMeaning.NoneRepeated, TiffMeaning.MeaningOfFirst, TiffMeaning.GpsSlots;
    var sources := ImageTiffs(d, scanned);
    var block := FirstBlock(sources, keepExif).value;
    BlocksAreShort(sources, keepExif);
    var s :| s in sources && TiffFilter.Filtered(s, keepExif) == Some(block);
    BlockIsNotPrefixed(s, keepExif);
    AttachedIsFound(d, block, scanned, crc);
    TiffMeaning.RebuildTwice(s, keepExif);
    if keepExif {
      TiffMeaning.CameraBlockHasNoLocation(s);
    } else {
      TiffMeaning.RebuildReadsFirstEntries(s);
      if TiffMeaning.NoneRepeated(TiffMeaning.GpsSlots(s)) {
        TiffMeaning.LocationIsKept(s);
      }
    }
  }

  // ---- a PNG whose IHDR is not 13 bytes -------------------------------------------------------------------------

  /** An IHDR of two bytes, so that the first 33 bytes end inside the checksum of IEND. */
  const SHORT_HEADER: seq<Png.Chunk> := [Png.Chunk(Png.IHDR, [0, 0], [0, 0, 0, 0]), Png.Chunk(Png.IEND, [], [0, 0, 0, 1])]

  const BROKEN_END: seq<Png.Chunk> := [SHORT_HEADER[0], Png.Chunk(Png.IEND, [], [0, 0, 0, 0])]

  lemma TwoChunks(a: Png.Chunk, b: Png.Chunk)
    requires Png.ChunkOk(a) && Png.ChunkOk(b) && a.kind == Png.IHDR && b.kind == Png.IEND
    ensures Png.Print([a, b]) == Png.PrintChunk(a) + Png.PrintChunk(b)
    ensures Png.Complete([a, b]) && Png.Keep([a, b]) == [a, b]
  {
    hide Png.PrintChunk;
    assert [a, b][1..] == [b] && [b][1..] == [];
    Attach.OneChunk(b);
    assert a.kind !in Png.DROPPED && b.kind !in Png.DROPPED by {
      assert forall k :: k in Png.DROPPED ==> k[0] != Png.IHDR[0];
    }
    assert Png.Keep([b]) == [b] && Png.Keep([a, b]) == [a] + Png.Keep([b]);
  }

  lemma ShortPng()
    ensures Png.PrintChunk(SHORT_HEADER[0]) == [0, 0, 0, 2, 73, 72, 68, 82, 0, 0, 0, 0, 0, 0]
    ensures Png.PrintChunk(SHORT_HEADER[1]) == [0, 0, 0, 0, 73, 69, 78, 68, 0, 0, 0, 1]
    ensures Png.PrintChunk(BROKEN_END[1]) == [0, 0, 0, 0, 73, 69, 78, 68, 0, 0, 0, 0]
  {
  }

  /** The header's length is not checked, and without its 13 bytes the block lands inside a chunk:
      whatever block is put in, stripping the result does not give the stripped file back. */
  lemma ShortHeaderDisturbsThePicture(block: bytes, crc: bytes -> nat)
    requires |block| <= TiffFilter.LIMIT
    ensures var clean := Png.SIGNATURE + Png.Print(SHORT_HEADER);
            && Png.Stripped(clean) == Some(clean)
            && Attach.ToPng(clean, block, crc).Some?
            && Png.Stripped(Attach.ToPng(clean, block, crc).value) != Some(clean)
  {
    hide Png.Parse, Png.Print, Png.Keep, Png.PrintChunk, Png.Complete, Put32;
    var clean := Png.SIGNATURE + Png.Print(SHORT_HEADER);
    TwoChunks(SHORT_HEADER[0], SHORT_HEADER[1]);
    TwoChunks(BROKEN_END[0], BROKEN_END[1]);
    ShortPng();
    Png.ParsePrint(SHORT_HEADER, []);
    assert clean[8..] == Png.Print(SHORT_HEADER) + [];
    assert |clean| == 34 && clean[12..16] == Png.PrintChunk(SHORT_HEADER[0])[4..8] == Png.IHDR;
    var out := Attach.ToPng(clean, block, crc).value;
    BlockSize(|block|);
    assert out[..33] == clean[..33] && out[33] == Put32(Big, |block|)[0];
    LastByteChanged(clean, out, Png.Print(SHORT_HEADER), Png.Print(BROKEN_END));
    Png.ParsePrint(BROKEN_END, out[34..]);
    assert out[..8] == Png.SIGNATURE;
    assert Png.Stripped(out) == Some(Png.SIGNATURE + Png.Print(BROKEN_END));
    assert (Png.SIGNATURE + Png.Print(BROKEN_END))[33] == 0 && clean[33] == 1;
  }

  lemma LastByteChanged(clean: bytes, out: bytes, body: bytes, broken: bytes)
    requires clean == Png.SIGNATURE + body && |body| == 26 && broken == body[..25] + [0]
    requires |out| >= 34 && out[..33] == clean[..33] && out[33] == 0
    ensures out[8..] == broken + out[34..]
  {
    assert out[8..33] == out[..33][8..] && clean[8..33] == clean[..33][8..];
    assert clean[8..33] == body[..25];
    assert out[8..] == out[8..33] + [out[33]] + out[34..];
  }

  lemma BlockSize(n: nat)
    requires n < 0x1_0000
    ensures Put32(Big, n)[0] == 0
  {
  }
}
