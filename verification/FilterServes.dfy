/** What Filter serves, by the tag numbers a reader finds: with one category kept, a file with nothing
    but that category of Exif in it, and the rest of the file as it is without any. */
module FilterServes {
  import opened Prelude
  import opened Bytes
  import opened Filter
  import opened Tiff
  import Jpeg
  import Png
  import WebP
  import TiffFilter
  import TiffMeaning
  import Attach

  // ---- the tags ----------------------------------------------------------------------------------------------------

  /** Make, model, orientation, software, date, artist, copyright. */
  predicate CameraTag(tag: nat) {
    0x010F <= tag <= 0x0110 || tag == 0x0112 || 0x0131 <= tag <= 0x0132 || tag == 0x013B || tag == 0x8298
  }

  /** How the picture was taken. Not here: maker note 0x927C, comment 0x9286, image id 0xA420, owner
      0xA430, the serial numbers 0xA431 and 0xA435, and sub-directories. */
  predicate ExposureTag(tag: nat) { SpeedTag(tag) || TimeTag(tag) || CaptureTag(tag) || SensorTag(tag) || LensTag(tag) }

  predicate SpeedTag(tag: nat) {
    tag == 0x829A || tag == 0x829D || tag == 0x8822 || tag == 0x8827 || 0x8830 <= tag <= 0x8833
  }

  predicate TimeTag(tag: nat) {
    tag == 0x9000 || 0x9003 <= tag <= 0x9004 || 0x9010 <= tag <= 0x9012 || 0x9101 <= tag <= 0x9102
  }

  predicate CaptureTag(tag: nat) { 0x9201 <= tag <= 0x9205 || 0x9207 <= tag <= 0x920A || 0x9290 <= tag <= 0x9292 }

  predicate SensorTag(tag: nat) {
    0xA000 <= tag <= 0xA003 || 0xA20E <= tag <= 0xA210 || tag == 0xA217 || 0xA300 <= tag <= 0xA301
  }

  predicate LensTag(tag: nat) { 0xA401 <= tag <= 0xA40A || 0xA432 <= tag <= 0xA434 }

  predicate LocationTag(tag: nat) { tag <= 0x1F }

  lemma SpeedTags(tag: nat)
    ensures tag in TiffFilter.SPEED_TAGS <==> SpeedTag(tag)
  {
  }

  lemma TimeTags(tag: nat)
    ensures tag in TiffFilter.TIME_TAGS <==> TimeTag(tag)
  {
  }

  lemma CaptureTags(tag: nat)
    ensures tag in TiffFilter.CAPTURE_TAGS <==> CaptureTag(tag)
  {
  }

  lemma SensorTags(tag: nat)
    ensures tag in TiffFilter.SENSOR_TAGS <==> SensorTag(tag)
  {
  }

  lemma LensTags(tag: nat)
    ensures tag in TiffFilter.LENS_TAGS <==> LensTag(tag)
  {
  }

  /** The allow-lists, both ways. */
  lemma ListsAreExact(tag: nat)
    ensures TiffFilter.Allowed(TiffFilter.CameraGroup, tag) <==> CameraTag(tag)
    ensures TiffFilter.Allowed(TiffFilter.ExposureGroup, tag) <==> ExposureTag(tag)
    ensures TiffFilter.Allowed(TiffFilter.GpsGroup, tag) <==> LocationTag(tag)
  {
    hide TiffFilter.SPEED_TAGS, TiffFilter.TIME_TAGS, TiffFilter.CAPTURE_TAGS, TiffFilter.SENSOR_TAGS, TiffFilter.LENS_TAGS;
    hide SpeedTag, TimeTag, CaptureTag, SensorTag, LensTag;
    SpeedTags(tag);
    TimeTags(tag);
    CaptureTags(tag);
    SensorTags(tag);
    LensTags(tag);
  }

  // ---- blocks of one category --------------------------------------------------------------------------------------

  /** A block with camera and exposure data alone: no location, no GPS directory, and only listed tags. */
  ghost predicate CameraOnly(b: bytes) {
    HeaderOrder(b).Some? &&
    var order := HeaderOrder(b).value;
    && TiffLocation(b) == NOWHERE
    && Child(order, b, 0x8825).None?
    && (forall s :: s in Root(order, b) ==> CameraTag(s.tag) || s.tag == 0x8769)
    && (Child(order, b, 0x8769).Some? ==> forall s :: s in Child(order, b, 0x8769).value ==> ExposureTag(s.tag))
  }

  /** A block with a GPS directory alone. */
  ghost predicate LocationOnly(b: bytes) {
    HeaderOrder(b).Some? &&
    var order := HeaderOrder(b).value;
    && Child(order, b, 0x8769).None?
    && (forall s :: s in Root(order, b) ==> s.tag == 0x8825)
    && (Child(order, b, 0x8825).Some? ==> forall s :: s in Child(order, b, 0x8825).value ==> LocationTag(s.tag))
  }

  /** The camera fields of a payload: of each listed tag the first readable entry, in the first directory
      and in the Exif directory. */
  ghost predicate SameCamera(s: bytes, b: bytes) {
    && HeaderOrder(s).Some? && HeaderOrder(b) == HeaderOrder(s)
    && var order := HeaderOrder(s).value;
       && TiffFilter.Select(order, b, Root(order, b), TiffFilter.CameraGroup, {})
          == TiffFilter.Select(order, s, Root(order, s), TiffFilter.CameraGroup, {})
       && Exposure(order, b) == Exposure(order, s)
  }

  function Exposure(order: Order, d: bytes): seq<TiffFilter.Field>
    requires |d| >= 8
  {
    var ss := Child(order, d, 0x8769);
    if ss.None? then [] else TiffFilter.Select(order, d, ss.value, TiffFilter.ExposureGroup, {})
  }

  lemma CameraBlock(s: bytes)
    requires TiffFilter.Filtered(s, true).Some?
    ensures CameraOnly(TiffFilter.Filtered(s, true).value) && SameCamera(s, TiffFilter.Filtered(s, true).value)
  {
    hide TiffFilter.Filtered, TiffFilter.Select, Root, Child, TiffFilter.Allowed, CameraTag, ExposureTag, TiffLocation;
    var b := TiffFilter.Filtered(s, true).value;
    TiffMeaning.OnlyAllowedTags(s, true);
    TiffMeaning.CameraBlockHasNoLocation(s);
    TiffMeaning.RebuildKeepsTheSelection(s, true);
    forall tag: nat
      ensures TiffFilter.Allowed(TiffFilter.CameraGroup, tag) <==> CameraTag(tag)
      ensures TiffFilter.Allowed(TiffFilter.ExposureGroup, tag) <==> ExposureTag(tag)
    {
      ListsAreExact(tag);
    }
  }

  /** The first directory of a location block holds the pointer and nothing else. */
  lemma OnlyThePointer(s: bytes)
    requires TiffFilter.Filtered(s, false).Some?
    ensures var b := TiffFilter.Filtered(s, false).value;
            HeaderOrder(b).Some? && forall x :: x in Root(HeaderOrder(b).value, b) ==> x.tag == 0x8825
  {
    TiffMeaning.OnlyAllowedTags(s, false);
    TiffMeaning.LocationRoot(s);
  }

  lemma LocationBlock(s: bytes)
    requires TiffFilter.Filtered(s, false).Some?
    ensures LocationOnly(TiffFilter.Filtered(s, false).value) && MadeFrom(s, TiffFilter.Filtered(s, false).value)
  {
    hide TiffFilter.Filtered, Root, Child, TiffFilter.Allowed, TiffLocation;
    hide TiffMeaning.NoneRepeated, TiffMeaning.MeaningOfFirst, TiffMeaning.GpsSlots;
    TiffMeaning.OnlyAllowedTags(s, false);
    OnlyThePointer(s);
    TiffMeaning.RebuildReadsFirstEntries(s);
    if TiffMeaning.NoneRepeated(TiffMeaning.GpsSlots(s)) {
      TiffMeaning.LocationIsKept(s);
    }
    forall tag: nat
      ensures TiffFilter.Allowed(TiffFilter.GpsGroup, tag) <==> LocationTag(tag)
    {
      ListsAreExact(tag);
    }
  }

  // ---- what is served ----------------------------------------------------------------------------------------------

  /** Made of one of these payloads, for readers of camera data or of the location. */
  ghost predicate Serves(sources: seq<bytes>, b: bytes, keepExif: bool) {
    if keepExif then CameraOnly(b) && exists s :: s in sources && SameCamera(s, b)
    else LocationOnly(b) && exists s :: s in sources && MadeFrom(s, b)
  }

  lemma {:induction false} NoneHasAny(sources: seq<bytes>, camera: bool)
    requires FirstBlock(sources, camera).None?
    ensures forall s :: s in sources ==> TiffFilter.Filtered(s, camera).None?
  {
    hide TiffFilter.Filtered;
    if sources != [] {
      NoneHasAny(sources[1..], camera);
      assert sources == [sources[0]] + sources[1..];
    }
  }

  lemma BlockServes(sources: seq<bytes>, keepExif: bool)
    requires FirstBlock(sources, keepExif).Some?
    ensures Serves(sources, FirstBlock(sources, keepExif).value, keepExif)
  {
    hide CameraOnly, LocationOnly, SameCamera, MadeFrom, FirstBlock, TiffFilter.Filtered;
    BlocksAreShort(sources, keepExif);
    var s :| s in sources && TiffFilter.Filtered(s, keepExif) == FirstBlock(sources, keepExif);
    if keepExif {
      CameraBlock(s);
    } else {
      LocationBlock(s);
    }
  }

  /** Whatever the format: with both categories kept the file itself is served, with neither the stripped
      file, and with one of them the stripped file with a block of exactly that category put in, made
      from one of the file's payloads; or the stripped file as it is, when no payload has any of that
      category or the format carries none. */
  lemma OneCategoryIsServed(d: bytes, keepExif: bool, keepLocation: bool, scanned: seq<bytes>, crc: bytes -> nat)
    requires Filtered(d, keepExif, keepLocation, scanned, crc).Some?
    ensures var out := Filtered(d, keepExif, keepLocation, scanned, crc).value;
            && (keepExif && keepLocation ==> out == d)
            && (!keepExif && !keepLocation ==> Stripped(d) == Some(out))
            && (keepExif != keepLocation ==>
                  && Stripped(d).Some?
                  && var sources, clean := ImageTiffs(d, scanned), Stripped(d).value;
                     if exists s :: s in sources && TiffFilter.Filtered(s, keepExif).Some?
                     then exists b :: Serves(sources, b, keepExif) && |b| <= 65527 && Attached(clean, b, crc) == Some(out)
                     else out == clean)
  {
    hide Stripped, ImageTiffs, Attached, TiffFilter.Filtered, Serves, FirstBlock;
    if keepExif != keepLocation {
      var sources := ImageTiffs(d, scanned);
      if FirstBlock(sources, keepExif).Some? {
        BlockServes(sources, keepExif);
        BlocksAreShort(sources, keepExif);
      } else {
        NoneHasAny(sources, keepExif);
      }
    }
  }

  /** A filtered JPEG, byte for byte: behind the start of image one APP1 segment with the block, and then
      the stripped file; its first item is that segment, and the others are those of the stripped file. */
  ghost predicate JpegWith(clean: bytes, b: bytes, out: bytes) {
    && |b| <= 65527 && |clean| >= 2 && |out| >= 2
    && out == [0xFF, 0xD8, 0xFF, 0xE1, (|b| + 8) / 256, (|b| + 8) % 256, 69, 120, 105, 102, 0, 0] + b + clean[2..]
    && Jpeg.Parse(out[2..])
       == Jpeg.Prepend([Jpeg.Segment(0xE1, [69, 120, 105, 102, 0, 0] + b)], Jpeg.Parse(clean[2..]))
  }

  lemma JpegHolds(clean: bytes, b: bytes)
    requires Jpeg.LooksLike(clean) && |b| <= 65527
    ensures JpegWith(clean, b, Attach.ToJpeg(clean, b))
  {
    hide Jpeg.Parse, Jpeg.Prepend, Jpeg.Stripped;
    Attach.JpegBlockIsStripped(clean, b);
    assert clean[..2] == [0xFF, 0xD8];
    JpegFront(b, clean[2..]);
  }

  lemma JpegFront(b: bytes, rest: bytes)
    requires |b| <= 65527
    ensures [0xFF, 0xD8] + [0xFF, 0xE1] + Put16(Big, |Attach.EXIF_HEADER + b| + 2) + (Attach.EXIF_HEADER + b) + rest
            == [0xFF, 0xD8, 0xFF, 0xE1, (|b| + 8) / 256, (|b| + 8) % 256, 69, 120, 105, 102, 0, 0] + b + rest
  {
  }

  /** A JPEG of which one category is kept: camera data without a location, or the location alone. */
  lemma JpegServesOneCategory(d: bytes, keepExif: bool, scanned: seq<bytes>, crc: bytes -> nat)
    requires Jpeg.LooksLike(d) && Jpeg.Stripped(d).Some?
    ensures Filtered(d, keepExif, !keepExif, scanned, crc).Some?
    ensures var out, clean := Filtered(d, keepExif, !keepExif, scanned, crc).value, Jpeg.Stripped(d).value;
            if keepExif then
              if exists s :: s in scanned && TiffFilter.Filtered(s, true).Some?
              then exists b :: JpegWith(clean, b, out) && CameraOnly(b) && exists s :: s in scanned && SameCamera(s, b)
              else out == clean
            else
              if exists s :: s in scanned && TiffFilter.Filtered(s, false).Some?
              then exists b :: JpegWith(clean, b, out) && LocationOnly(b) && exists s :: s in scanned && MadeFrom(s, b)
              else out == clean
  {
    hide Stripped, TiffFilter.Filtered, FirstBlock, JpegWith, CameraOnly, LocationOnly, SameCamera, MadeFrom, Attach.ToJpeg, Jpeg.Stripped;
    FormatsDiffer(d);
    StrippedByFormat(d);
    FormatIsKept(d);
    var clean := Jpeg.Stripped(d).value;
    OneCategoryIsServed(d, keepExif, !keepExif, scanned, crc);
    var out := Filtered(d, keepExif, !keepExif, scanned, crc).value;
    if exists s :: s in scanned && TiffFilter.Filtered(s, keepExif).Some? {
      var b :| Serves(scanned, b, keepExif) && |b| <= 65527 && Attached(clean, b, crc) == Some(out);
      JpegHolds(clean, b);
    }
  }

  /** A filtered PNG, byte for byte: the signature and a 13-byte IHDR as they are, then one eXIf chunk with the
      block and the checksum of its type and contents, then the rest of the stripped file. */
  ghost predicate PngWith(clean: bytes, b: bytes, crc: bytes -> nat, out: bytes) {
    && |clean| >= 33 && clean[12..16] == [73, 72, 68, 82] && |b| <= 65527
    && out == clean[..33] + [0, 0, |b| / 256, |b| % 256] + [101, 88, 73, 102] + b + Put32(Big, crc([101, 88, 73, 102] + b)) + clean[33..]
  }

  lemma PngHolds(clean: bytes, b: bytes, crc: bytes -> nat)
    requires |b| <= 65527
    ensures var r := Attach.ToPng(clean, b, crc);
            && (r.Some? <==> |clean| >= 33 && clean[12..16] == [73, 72, 68, 82])
            && (r.Some? ==> PngWith(clean, b, crc, r.value))
  {
    if Attach.ToPng(clean, b, crc).Some? {
      assert Put32(Big, |b|) == [0, 0, |b| / 256, |b| % 256];
      ShortJoined(clean[..33] + Put32(Big, |b|), Png.EXIF, b);
    }
  }

  lemma ShortJoined(a: bytes, b: bytes, c: bytes)
    ensures a + (b + c) == a + b + c
  {
  }

  /** A PNG of which one category is kept. */
  lemma PngServesOneCategory(d: bytes, keepExif: bool, scanned: seq<bytes>, crc: bytes -> nat)
    requires Png.LooksLike(d) && Filtered(d, keepExif, !keepExif, scanned, crc).Some?
    ensures Png.Stripped(d).Some?
    ensures var out, clean := Filtered(d, keepExif, !keepExif, scanned, crc).value, Png.Stripped(d).value;
            var sources := ImageTiffs(d, scanned);
            if exists s :: s in sources && TiffFilter.Filtered(s, keepExif).Some?
            then exists b :: PngWith(clean, b, crc, out) && Serves(sources, b, keepExif)
            else out == clean
  {
    hide Stripped, TiffFilter.Filtered, FirstBlock, PngWith, Serves, Attach.ToPng, Png.Stripped, ImageTiffs;
    FormatsDiffer(d);
    StrippedByFormat(d);
    OneCategoryIsServed(d, keepExif, !keepExif, scanned, crc);
    FormatIsKept(d);
    var clean, sources := Png.Stripped(d).value, ImageTiffs(d, scanned);
    var out := Filtered(d, keepExif, !keepExif, scanned, crc).value;
    if exists s :: s in sources && TiffFilter.Filtered(s, keepExif).Some? {
      var b :| Serves(sources, b, keepExif) && |b| <= 65527 && Attached(clean, b, crc) == Some(out);
      PngHolds(clean, b, crc);
    }
  }

  // ---- which payloads there are -------------------------------------------------------------------------------------

  /** Chunks of type eXIf or EXIF, in either container. */
  predicate Carries(kind: bytes) { kind == [101, 88, 73, 102] || kind == [69, 88, 73, 70] }

  /** Their contents, without the six bytes a JPEG would put in front. */
  function Payload(body: bytes): bytes {
    if |body| >= 6 && body[..6] == [69, 120, 105, 102, 0, 0] then body[6..] else body
  }

  function PngPayloads(cs: seq<Png.Chunk>): seq<bytes> {
    if cs == [] then [] else (if Carries(cs[0].kind) then [Payload(cs[0].body)] else []) + PngPayloads(cs[1..])
  }

  function WebPPayloads(cs: seq<WebP.Chunk>): seq<bytes> {
    if cs == [] then [] else (if Carries(cs[0].kind) then [Payload(cs[0].body)] else []) + WebPPayloads(cs[1..])
  }

  lemma PayloadIsTrimmed(kind: bytes, body: bytes)
    ensures ExifKind(kind) <==> Carries(kind)
    ensures Trim(body) == Payload(body)
  {
  }

  lemma {:induction false} PngPayloadsInOrder(cs: seq<Png.Chunk>, rest: bytes)
    requires Png.Complete(cs)
    ensures Payloads(false, Png.Print(cs) + rest) == PngPayloads(cs)
    decreases |cs|
  {
    hide Png.PrintChunk, Payloads, Whole, Here, Step, KindIn, Trim, Carries, Payload, ExifKind;
    var tail := Png.Print(cs[1..]) + rest;
    assert Png.Print(cs) + rest == Png.PrintChunk(cs[0]) + tail;
    PngStep(cs[0], tail);
    PayloadStep(false, Png.PrintChunk(cs[0]) + tail);
    PayloadIsTrimmed(cs[0].kind, cs[0].body);
    if cs[0].kind == Png.IEND {
      assert cs[1..] == [] && PngPayloads([]) == [];
      assert PngPayloads(cs) == (if Carries(cs[0].kind) then [Payload(cs[0].body)] else []) + [];
    } else {
      PngPayloadsInOrder(cs[1..], rest);
    }
  }

  lemma {:induction false} WebPPayloadsInOrder(cs: seq<WebP.Chunk>)
    requires WebP.AllOk(cs) && forall c :: c in cs ==> c.kind != [73, 69, 78, 68]
    ensures Payloads(true, WebP.Print(cs)) == WebPPayloads(cs)
    decreases |cs|
  {
    hide WebP.PrintChunk, Payloads, Whole, Here, Step, KindIn, Trim, Carries, Payload, ExifKind;
    if cs == [] {
      NoPayload(true);
    } else {
      assert cs[0] in cs;
      WebPStep(cs[0], WebP.Print(cs[1..]));
      PayloadStep(true, WebP.PrintChunk(cs[0]) + WebP.Print(cs[1..]));
      PayloadIsTrimmed(cs[0].kind, cs[0].body);
      WebPPayloadsInOrder(cs[1..]);
    }
  }

  /** The search finds the payload of every Exif chunk, each and in order: in every PNG that is taken, and
      in every WebP that is all chunks and has none called IEND, at which the search would stop. */
  lemma EveryPayloadIsFound(d: bytes, scanned: seq<bytes>)
    ensures Png.LooksLike(d) && Png.Parse(d[8..]).Some? ==>
              ImageTiffs(d, scanned) == PngPayloads(Png.Parse(d[8..]).value)
    ensures WebP.LooksLike(d) && WebP.Parse(d[12..]).Some?
            && (forall c :: c in WebP.Parse(d[12..]).value ==> c.kind != [73, 69, 78, 68]) ==>
              ImageTiffs(d, scanned) == WebPPayloads(WebP.Parse(d[12..]).value)
  {
    hide Png.Parse, WebP.Parse, Payloads, PngPayloads, WebPPayloads, Png.Print, WebP.Print, Png.Complete, WebP.AllOk;
    FormatsDiffer(d);
    if Png.LooksLike(d) && Png.Parse(d[8..]).Some? {
      var cs := Png.Parse(d[8..]).value;
      Png.ParseIsPrint(d[8..]);
      var rest := d[8..][|Png.Print(cs)|..];
      assert d[8..] == Png.Print(cs) + rest;
      PngPayloadsInOrder(cs, rest);
    }
    if WebP.LooksLike(d) && WebP.Parse(d[12..]).Some? {
      WebP.ParseIsPrint(d[12..]);
      if forall c :: c in WebP.Parse(d[12..]).value ==> c.kind != [73, 69, 78, 68] {
        WebPPayloadsInOrder(WebP.Parse(d[12..]).value);
      }
    }
  }
}
