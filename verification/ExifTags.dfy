/** The written Exif block, tag by tag: each value that was given stands in its directory under the number
    Exif 2.3 gives it, and nothing stands there that was not given. */
module ExifTags {
  import opened Prelude
  import opened Bytes
  import opened Tiff
  import opened TiffFilter
  import opened TiffRoundTrip
  import opened ExifWrite
  import opened ExifRoundTrip

  /** An entry of this tag, type and count, with these bytes in its slot or where it points. */
  ghost predicate Has(out: bytes, ss: seq<Slot>, tag: nat, kind: nat, count: nat, v: bytes) {
    exists s :: s in ss && s.tag == tag && s.kind == kind && s.count == count && ValueIs(out, s, v)
  }

  ghost predicate ValueIs(out: bytes, s: Slot, v: bytes) {
    |s.value| == 4 &&
    if |v| <= 4 then s.value[..|v|] == v
    else var off := Get32(Little, s.value); off + |v| <= |out| && out[off..off + |v|] == v
  }

  ghost predicate Lacks(ss: seq<Slot>, tag: nat) { forall s :: s in ss ==> s.tag != tag }

  // ---- every field ---------------------------------------------------------------------------------------------

  lemma {:induction false} SlotIs(fs: seq<Field>, at: nat, k: nat)
    requires k < |fs|
    ensures var s := SlotsFor(Little, fs, at)[k]; s.tag == fs[k].tag && s.kind == fs[k].kind && s.count == fs[k].count
    ensures |fs[k].value| <= 4 ==> SlotsFor(Little, fs, at)[k].value == fs[k].value + Zeros(4 - |fs[k].value|)
    decreases |fs|
  {
    hide Outside;
    if k > 0 {
      SlotIs(fs[1..], at + Outside(fs[0]), k - 1);
    }
  }

  lemma FieldIsHeld(out: bytes, fs: seq<Field>, at: nat, f: Field)
    requires Holds(out, at, fs) && at % 2 == 0 && |out| < U32 && f in fs
    ensures Has(out, SlotsFor(Little, fs, at), f.tag, f.kind, f.count, f.value)
  {
    hide Holds, OutsideAll, SlotsFor, Put32;
    var k: nat :| k < |fs| && fs[k] == f;
    var s := SlotsFor(Little, fs, at)[k];
    SlotIs(fs, at, k);
    if |f.value| > 4 {
      ValueHasItsPlace(out, fs, at, k);
      Get32Fits(Little, at + OutsideAll(fs[..k]));
    } else {
      assert (f.value + Zeros(4 - |f.value|))[..|f.value|] == f.value;
    }
    assert s in SlotsFor(Little, fs, at) && ValueIs(out, s, f.value);
  }

  lemma {:induction false} TagsAreTheFields(fs: seq<Field>, at: nat, tag: nat)
    requires forall f :: f in fs ==> f.tag != tag
    ensures Lacks(SlotsFor(Little, fs, at), tag)
    decreases |fs|
  {
    hide SlotFor, Outside;
    if fs != [] {
      assert fs[0] in fs && SlotFor(Little, fs[0], at).tag == fs[0].tag by { FirstSlot(fs[0], at); }
      TagsAreTheFields(fs[1..], at + Outside(fs[0]), tag);
    }
  }

  lemma FirstSlot(f: Field, at: nat)
    ensures SlotFor(Little, f, at).tag == f.tag
  {
  }

  // ---- the three directories -------------------------------------------------------------------------------------

  /** The directories of a written block. */
  ghost predicate Reads(out: bytes, root: seq<Slot>, exif: seq<Slot>, gps: seq<Slot>) {
    && |out| >= 8 && HeaderOrder(out) == Some(Little)
    && root == Root(Little, out)
    && Child(Little, out, 0x8769) == Some(exif) && Child(Little, out, 0x8825) == Some(gps)
  }

  ghost predicate Written(out: bytes, fs: seq<Field>, ss: seq<Slot>) {
    && (forall f :: f in fs ==> Has(out, ss, f.tag, f.kind, f.count, f.value))
    && (forall tag: nat :: (forall f :: f in fs ==> f.tag != tag) ==> Lacks(ss, tag))
  }

  lemma DirectoryIsWritten(out: bytes, fs: seq<Field>, at: nat)
    requires Holds(out, at, fs) && at % 2 == 0 && |out| < U32
    ensures Written(out, fs, SlotsFor(Little, fs, at))
  {
    hide Holds, SlotsFor, Has, Lacks;
    forall f | f in fs
      ensures Has(out, SlotsFor(Little, fs, at), f.tag, f.kind, f.count, f.value)
    {
      FieldIsHeld(out, fs, at, f);
    }
    forall tag: nat | forall f :: f in fs ==> f.tag != tag
      ensures Lacks(SlotsFor(Little, fs, at), tag)
    {
      TagsAreTheFields(fs, at, tag);
    }
  }

  lemma ValuesAreEven(c: seq<Field>, e: seq<Field>, p: seq<Field>)
    ensures ValuesFrom(c, e, p) % 2 == 0 && SecondValues(c, e, p) % 2 == 0 && ThirdValues(c, e, p) % 2 == 0
  {
    hide OutsideAll;
    EvenStart(|c|, |e|, |p|);
    EvenOutside(c);
    EvenOutside(e);
  }

  lemma BlockIsWritten(t: Tags) returns (root: seq<Slot>, exif: seq<Slot>, gps: seq<Slot>)
    requires |BlockBytes(t)| < U32
    ensures var out := BlockBytes(t);
            && Reads(out, root, exif, gps)
            && Written(out, PointedCamera(t), root) && Written(out, Exposure(t), exif) && Written(out, Position(t), gps)
  {
    hide Payload, PointedCamera, Exposure, Position, Holds, SlotsFor, Written, Root, Child, HeaderOrder, SecondValues, ThirdValues;
    hide ValuesFrom;
    var out := BlockBytes(t);
    var c, e, p := PointedCamera(t), Exposure(t), Position(t);
    BlockReadsBack(t);
    ValuesAreHeld(c, e, p);
    ValuesAreEven(c, e, p);
    root, exif, gps := SlotsFor(Little, c, ValuesFrom(c, e, p)), SlotsFor(Little, e, SecondValues(c, e, p)),
                       SlotsFor(Little, p, ThirdValues(c, e, p));
    DirectoryIsWritten(out, c, ValuesFrom(c, e, p));
    DirectoryIsWritten(out, e, SecondValues(c, e, p));
    DirectoryIsWritten(out, p, ThirdValues(c, e, p));
  }

  // ---- tag by tag -------------------------------------------------------------------------------------------------

  /** A text stands under this tag, closed by a zero, or nothing does. */
  ghost predicate TextAt(out: bytes, ss: seq<Slot>, tag: nat, text: bytes) {
    if text == [] then Lacks(ss, tag) else Has(out, ss, tag, 2, |text| + 1, text + [0])
  }

  /** A rational stands under this tag, or nothing does. */
  ghost predicate RatioAt(out: bytes, ss: seq<Slot>, tag: nat, p: Pair) {
    if p == (0, 0) then Lacks(ss, tag) else Has(out, ss, tag, 5, 1, Put32(Little, p.0) + Put32(Little, p.1))
  }

  ghost predicate TextAmong(fs: seq<Field>, tag: nat, text: bytes) {
    if text == [] then forall f :: f in fs ==> f.tag != tag else Ascii(tag, text) in fs
  }

  ghost predicate RatioAmong(fs: seq<Field>, tag: nat, p: Pair) {
    if p == (0, 0) then forall f :: f in fs ==> f.tag != tag else Rationals(tag, [p]) in fs
  }

  lemma TextIsThere(out: bytes, fs: seq<Field>, ss: seq<Slot>, tag: nat, text: bytes)
    requires Written(out, fs, ss)
    requires TextAmong(fs, tag, text)
    ensures TextAt(out, ss, tag, text)
  {
    hide Has, Lacks;
  }

  lemma RatioIsThere(out: bytes, fs: seq<Field>, ss: seq<Slot>, tag: nat, p: Pair)
    requires Written(out, fs, ss)
    requires RatioAmong(fs, tag, p)
    ensures RatioAt(out, ss, tag, p)
  {
    hide Has, Lacks;
    if p != (0, 0) {
      OnePair(p);
    }
  }

  lemma OnePair(p: Pair)
    ensures Pairs([p]) == Put32(Little, p.0) + Put32(Little, p.1)
  {
    hide Put32;
    assert [p][1..] == [];
    assert Put32(Little, p.0) + Put32(Little, p.1) + [] == Put32(Little, p.0) + Put32(Little, p.1);
  }

  /** What is in the camera directory: of these tags, those that were given, with their texts. */
  lemma CameraFields(t: Tags)
    ensures var fs := PointedCamera(t);
            && TextAmong(fs, 0x010F, t.make) && TextAmong(fs, 0x0110, t.model) && TextAmong(fs, 0x0131, t.software)
            && TextAmong(fs, 0x013B, t.artist) && TextAmong(fs, 0x8298, t.copyright)
  {
    hide Ascii, PointedCamera;
    CameraIs(t);
    TextTags(0x010F, t.make);
    TextTags(0x0110, t.model);
    TextTags(0x0131, t.software);
    TextTags(0x013B, t.artist);
    TextTags(0x8298, t.copyright);
  }

  lemma ExposureTags(t: Tags)
    ensures var fs := Exposure(t);
            && RatioAmong(fs, 0x829A, t.exposure) && RatioAmong(fs, 0x829D, t.aperture) && RatioAmong(fs, 0x920A, t.focalLength)
            && TextAmong(fs, 0x9003, t.taken) && TextAmong(fs, 0xA434, t.lensModel)
    ensures if t.iso == 0 then forall f :: f in Exposure(t) ==> f.tag != 0x8827 else Short(0x8827, t.iso) in Exposure(t)
  {
    hide Put16, Pairs;
  }

  /** Every value given stands in its directory under its tag: the camera's make, model, software, artist and
      copyright in the first; exposure time, aperture, sensitivity, date, focal length and lens in the
      second; and what was not given does not stand there. */
  lemma EveryGivenTagIsWritten(t: Tags) returns (root: seq<Slot>, exif: seq<Slot>, gps: seq<Slot>)
    requires |BlockBytes(t)| < U32
    ensures var out := BlockBytes(t);
            && Reads(out, root, exif, gps)
            && TextAt(out, root, 0x010F, t.make) && TextAt(out, root, 0x0110, t.model) && TextAt(out, root, 0x0131, t.software)
            && TextAt(out, root, 0x013B, t.artist) && TextAt(out, root, 0x8298, t.copyright)
            && RatioAt(out, exif, 0x829A, t.exposure) && RatioAt(out, exif, 0x829D, t.aperture)
            && (if t.iso == 0 then Lacks(exif, 0x8827) else Has(out, exif, 0x8827, 3, 1, Put16(Little, t.iso)))
            && TextAt(out, exif, 0x9003, t.taken) && RatioAt(out, exif, 0x920A, t.focalLength)
            && TextAt(out, exif, 0xA434, t.lensModel)
  {
    hide PointedCamera, Exposure, Position, TextAt, RatioAt, TextAmong, RatioAmong, Reads, BlockBytes, Has, Lacks, Ascii, Rationals, Put16;
    root, exif, gps := BlockIsWritten(t);
    var out := BlockBytes(t);
    CameraFields(t);
    TextIsThere(out, PointedCamera(t), root, 0x010F, t.make);
    TextIsThere(out, PointedCamera(t), root, 0x0110, t.model);
    TextIsThere(out, PointedCamera(t), root, 0x0131, t.software);
    TextIsThere(out, PointedCamera(t), root, 0x013B, t.artist);
    TextIsThere(out, PointedCamera(t), root, 0x8298, t.copyright);
    ExposureTags(t);
    RatioIsThere(out, Exposure(t), exif, 0x829A, t.exposure);
    RatioIsThere(out, Exposure(t), exif, 0x829D, t.aperture);
    RatioIsThere(out, Exposure(t), exif, 0x920A, t.focalLength);
    TextIsThere(out, Exposure(t), exif, 0x9003, t.taken);
    TextIsThere(out, Exposure(t), exif, 0xA434, t.lensModel);
  }

  lemma PositionEntries(t: Tags)
    requires Located(t)
    ensures forall f :: f in Position(t) ==> f.tag != 9
    ensures Field(1, 2, 2, [LatitudeRef(t), 0]) in Position(t) && Field(3, 2, 2, [LongitudeRef(t), 0]) in Position(t)
    ensures Field(2, 5, 3, Pairs(Sexagesimal(t.latitude))) in Position(t)
    ensures Field(4, 5, 3, Pairs(Sexagesimal(t.longitude))) in Position(t)
    ensures Field(5, 1, 1, [AltitudeRef(t)]) in Position(t)
  {
    hide Pairs, Sexagesimal, LatitudeRef, LongitudeRef, AltitudeRef, Round, Abs;
    assert [LatitudeRef(t)] + [0] == [LatitudeRef(t), 0] && [LongitudeRef(t)] + [0] == [LongitudeRef(t), 0];
  }

  /** A position is written in letters: N 78 or S 83, E 69 or W 87, by the sign of the coordinate; 0 above
      and 1 below the sea; and the degrees, minutes and hundredths of seconds under tags 2 and 4. */
  lemma PositionIsLettered(t: Tags) returns (root: seq<Slot>, exif: seq<Slot>, gps: seq<Slot>)
    requires |BlockBytes(t)| < U32 && Located(t)
    ensures var out := BlockBytes(t);
            && Reads(out, root, exif, gps)
            && Has(out, gps, 1, 2, 2, [if t.latitude < 0.0 then 83 else 78, 0])
            && Has(out, gps, 3, 2, 2, [if t.longitude < 0.0 then 87 else 69, 0])
            && Has(out, gps, 5, 1, 1, [if t.altitude < 0.0 then 1 else 0])
            && Has(out, gps, 2, 5, 3, Pairs(Sexagesimal(t.latitude)))
            && Has(out, gps, 4, 5, 3, Pairs(Sexagesimal(t.longitude)))
            && Lacks(gps, 9)
  {
    hide PointedCamera, Exposure, Position, Reads, BlockBytes, Has, Lacks, Pairs, Sexagesimal;
    root, exif, gps := BlockIsWritten(t);
    PositionEntries(t);
  }
}
