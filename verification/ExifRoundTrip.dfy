/** What the Exif writer wrote, read by the reader of internal/metadata/gps.go. */
module ExifRoundTrip {
  import opened Prelude
  import opened Bytes
  import opened Tiff
  import opened TiffFilter
  import opened TiffRoundTrip
  import opened TiffMeaning
  import opened ExifWrite

  // ---- three directories -------------------------------------------------------------------------------------

  /** The three directories as they lie in a payload, and where the values of each begin. */
  function First(c: seq<Field>, e: seq<Field>, p: seq<Field>): (b: bytes)
    ensures |b| == DirSize(c)
  {
    DirBytes(Little, c, ValuesFrom(c, e, p))
  }

  function SecondValues(c: seq<Field>, e: seq<Field>, p: seq<Field>): nat { ValuesFrom(c, e, p) + OutsideAll(c) }

  function Second(c: seq<Field>, e: seq<Field>, p: seq<Field>): (b: bytes)
    ensures |b| == DirSize(e)
  {
    DirBytes(Little, e, SecondValues(c, e, p))
  }

  function ThirdValues(c: seq<Field>, e: seq<Field>, p: seq<Field>): nat { SecondValues(c, e, p) + OutsideAll(e) }

  function Third(c: seq<Field>, e: seq<Field>, p: seq<Field>): (b: bytes)
    ensures |b| == DirSize(p)
  {
    DirBytes(Little, p, ThirdValues(c, e, p))
  }

  lemma PayloadForms(c: seq<Field>, e: seq<Field>, p: seq<Field>)
    ensures var out, h := Payload(c, e, p), Head(Little);
            var i, j, k := First(c, e, p), Second(c, e, p), Third(c, e, p);
            var x, y, z := Data(c), Data(e), Data(p);
            && out == h + i + (j + k + x + y + z) && out == h + i + j + (k + x + y + z) && out == h + i + j + k + (x + y + z)
            && out == h + i + j + k + x + (y + z) && out == h + i + j + k + x + y + z && out == h + i + j + k + x + y + z + []
  {
    hide Head, DirBytes, Data, OutsideAll;
    Regroup(Head(Little), First(c, e, p), Second(c, e, p), Third(c, e, p), Data(c), Data(e), Data(p));
  }

  lemma Regroup(h: bytes, d: bytes, e: bytes, f: bytes, x: bytes, y: bytes, z: bytes)
    ensures var out := h + d + e + f + x + y + z;
            && out == h + d + (e + f + x + y + z) && out == h + d + e + (f + x + y + z) && out == h + d + e + f + (x + y + z)
            && out == h + d + e + f + x + (y + z) && out == h + d + e + f + x + y + z + []
  {
  }

  lemma HoldsPart(pre: bytes, fs: seq<Field>, post: bytes, at: nat)
    requires |pre| == at
    ensures Holds(pre + Data(fs) + post, at, fs)
  {
    hide Data, OutsideAll;
    SliceOf(pre, Data(fs), post);
  }

  /** The values lie behind the directories, those of one directory behind those of the last. */
  lemma ValuesAreHeld(c: seq<Field>, e: seq<Field>, p: seq<Field>)
    ensures var out := Payload(c, e, p);
            && Holds(out, ValuesFrom(c, e, p), c) && Holds(out, SecondValues(c, e, p), e) && Holds(out, ThirdValues(c, e, p), p)
            && |out| == ThirdValues(c, e, p) + OutsideAll(p)
  {
    hide Head, Data, OutsideAll, First, Second, Third, Holds, Payload;
    HeadIsEight(Little);
    PayloadForms(c, e, p);
    var h, i, j, k := Head(Little), First(c, e, p), Second(c, e, p), Third(c, e, p);
    HoldsPart(h + i + j + k, c, Data(e) + Data(p), ValuesFrom(c, e, p));
    HoldsPart(h + i + j + k + Data(c), e, Data(p), SecondValues(c, e, p));
    HoldsPart(h + i + j + k + Data(c) + Data(e), p, [], ThirdValues(c, e, p));
  }

  /** Each directory reads back as its entries, in order, whatever lies behind it. */
  lemma DirectoriesReadBack(c: seq<Field>, e: seq<Field>, p: seq<Field>)
    requires AllInWidth(c) && AllInWidth(e) && AllInWidth(p) && |c| < U16 && |e| < U16 && |p| < U16
    ensures var out := Payload(c, e, p);
            && |out| >= 8 && HeaderOrder(out) == Some(Little)
            && Root(Little, out) == SlotsFor(Little, c, ValuesFrom(c, e, p))
            && Slots(Little, Directory(Little, out, ExifAt(c))) == SlotsFor(Little, e, SecondValues(c, e, p))
            && Slots(Little, Directory(Little, out, GpsAt(c, e))) == SlotsFor(Little, p, ThirdValues(c, e, p))
  {
    hide Head, DirBytes, Data, OutsideAll, Payload, AllInWidth, Slots, SlotsFor, Directory, HeaderOrder, Get32, SecondValues, ThirdValues;
    HeadIsEight(Little);
    PayloadForms(c, e, p);
    var h, i, j, k := Head(Little), First(c, e, p), Second(c, e, p), Third(c, e, p);
    var x, y, z := Data(c), Data(e), Data(p);
    Assoc(h, i, j + k + x + y + z);
    HeadReadsBack(Little, i + (j + k + x + y + z));
    DirectoryReadsBack(Little, h, c, ValuesFrom(c, e, p), j + k + x + y + z);
    DirectoryReadsBack(Little, h + i, e, SecondValues(c, e, p), k + x + y + z);
    DirectoryReadsBack(Little, h + i + j, p, ThirdValues(c, e, p), x + y + z);
  }

  // ---- finding the GPS directory ---------------------------------------------------------------------------------

  lemma {:induction false} FindsAt(fs: seq<Field>, at: nat, k: nat)
    requires k < |fs| && fs[k].kind == 4 && fs[k].count == 1 && |fs[k].value| == 4
    requires forall j: nat :: j < k ==> fs[j].tag != fs[k].tag
    ensures Find(SlotsFor(Little, fs, at), fs[k].tag, 4, 1) == Some(fs[k].value)
    decreases k
  {
    if k == 0 {
      assert fs[0].value + Zeros(0) == fs[0].value;
    } else {
      FindsAt(fs[1..], at + Outside(fs[0]), k - 1);
    }
  }

  lemma TextTags(tag: nat, text: bytes)
    ensures forall f :: f in Text(tag, text) ==> f.tag == tag && f.kind == 2 && f.count == |f.value|
    ensures |Text(tag, text)| <= 1
  {
  }

  function CameraTexts(t: Tags): seq<Field> {
    Text(0x010F, t.make) + Text(0x0110, t.model) + Text(0x0131, t.software) + Text(0x013B, t.artist)
    + Text(0x8298, t.copyright)
  }

  lemma {:induction false} PointedTexts(fs: seq<Field>, exif: nat, gps: nat)
    requires forall f :: f in fs ==> f.tag != EXIF_IFD && f.tag != GPS_IFD
    ensures Pointed(fs, exif, gps) == fs
  {
    hide Put32;
    if fs != [] {
      assert fs[0] in fs;
      PointedTexts(fs[1..], exif, gps);
    }
  }

  /** The camera directory as it is laid out: its texts and the two pointers. */
  lemma CameraIs(t: Tags)
    ensures forall f :: f in CameraTexts(t) ==> f.tag != EXIF_IFD && f.tag != GPS_IFD && f.tag < U16 && f.kind == 2 && f.count == |f.value|
    ensures |CameraTexts(t)| <= 5
    ensures PointedCamera(t) == CameraTexts(t) + [Field(EXIF_IFD, 4, 1, Put32(Little, ExifAt(Camera(t)))),
                                                  Field(GPS_IFD, 4, 1, Put32(Little, GpsAt(Camera(t), Exposure(t))))]
  {
    hide Put32, Text, Exposure;
    TextTags(0x010F, t.make);
    TextTags(0x0110, t.model);
    TextTags(0x0131, t.software);
    TextTags(0x013B, t.artist);
    TextTags(0x8298, t.copyright);
    var xs, a, b := CameraTexts(t), Pointer(EXIF_IFD), Pointer(GPS_IFD);
    assert Camera(t) == xs + [a] + [b];
    var exif, gps := ExifAt(Camera(t)), GpsAt(Camera(t), Exposure(t));
    PointedAppend(xs + [a], b, exif, gps);
    PointedAppend(xs, a, exif, gps);
    PointedTexts(xs, exif, gps);
    assert [a][1..] == [] && [b][1..] == [];
  }

  /** Counts never exceed the values, so what fits in a file fits its fields. */
  ghost predicate Modest(fs: seq<Field>) { forall f :: f in fs ==> f.tag < U16 && f.kind < U16 && f.count <= |f.value| }

  lemma {:induction false} ModestFits(fs: seq<Field>, bound: nat)
    requires Modest(fs) && OutsideAll(fs) <= bound < U32
    ensures AllInWidth(fs)
  {
    if fs != [] {
      assert fs[0] in fs && Modest(fs[1..]);
      ModestFits(fs[1..], bound);
    }
  }

  lemma RatioTags(tag: nat, p: Pair)
    ensures forall f :: f in Ratio(tag, p) ==> f.tag == tag && f.kind == 5 && f.count <= |f.value|
    ensures |Ratio(tag, p)| <= 1
  {
  }

  lemma DirectoriesAreModest(t: Tags)
    ensures Modest(PointedCamera(t)) && Modest(Exposure(t)) && Modest(Position(t))
    ensures |PointedCamera(t)| <= 7 && |Exposure(t)| <= 6 && |Position(t)| <= 6
  {
    hide Put32, Text, Ratio, Sexagesimal, Round, Abs, PointedCamera;
    CameraIs(t);
    RatioTags(0x829A, t.exposure);
    RatioTags(0x829D, t.aperture);
    RatioTags(0x920A, t.focalLength);
    TextTags(0x9003, t.taken);
    TextTags(0xA434, t.lensModel);
  }

  /** All three directories of a written block read back with their entries, and the second and third
      are found through the first. */
  lemma BlockReadsBack(t: Tags)
    requires |BlockBytes(t)| < U32
    ensures var out := BlockBytes(t);
            var c, e, p := PointedCamera(t), Exposure(t), Position(t);
            && |out| >= 8 && HeaderOrder(out) == Some(Little)
            && Root(Little, out) == SlotsFor(Little, c, ValuesFrom(c, e, p))
            && Child(Little, out, EXIF_IFD) == Some(SlotsFor(Little, e, SecondValues(c, e, p)))
            && Child(Little, out, GPS_IFD) == Some(SlotsFor(Little, p, ThirdValues(c, e, p)))
  {
    hide Payload, PointedCamera, Exposure, Position, Holds, Slots, SlotsFor, OutsideAll, Directory, Find, AllInWidth,
         Root, HeaderOrder, ExifAt, GpsAt, Modest, SecondValues, ValuesFrom, Get32;
    var c, e, p := PointedCamera(t), Exposure(t), Position(t);
    DirectoriesAreModest(t);
    BlockIsInWidth(t);
    DirectoriesReadBack(c, e, p);
    PointersLead(t);
  }

  lemma BlockIsInWidth(t: Tags)
    requires |BlockBytes(t)| < U32
    ensures AllInWidth(PointedCamera(t)) && AllInWidth(Exposure(t)) && AllInWidth(Position(t))
    ensures GpsAt(PointedCamera(t), Exposure(t)) < U32
  {
    hide Payload, PointedCamera, Exposure, Position, Holds, OutsideAll, AllInWidth, Modest;
    var c, e, p := PointedCamera(t), Exposure(t), Position(t);
    DirectoriesAreModest(t);
    ValuesAreHeld(c, e, p);
    ModestFits(c, U32 - 1);
    ModestFits(e, U32 - 1);
    ModestFits(p, U32 - 1);
  }

  /** The two pointers, wherever in the camera directory they are, hold the places of the other two. */
  lemma PointersLead(t: Tags)
    requires GpsAt(PointedCamera(t), Exposure(t)) < U32
    ensures var c, e := PointedCamera(t), Exposure(t);
            forall at: nat ::
              && Find(SlotsFor(Little, c, at), EXIF_IFD, 4, 1).Some?
              && Get32(Little, Find(SlotsFor(Little, c, at), EXIF_IFD, 4, 1).value) == ExifAt(c)
              && Find(SlotsFor(Little, c, at), GPS_IFD, 4, 1).Some?
              && Get32(Little, Find(SlotsFor(Little, c, at), GPS_IFD, 4, 1).value) == GpsAt(c, e)
  {
    hide Put32, Get32, SlotsFor, Find, PointedCamera, Exposure;
    var c, e, n := PointedCamera(t), Exposure(t), |CameraTexts(t)|;
    CameraIs(t);
    Get32Put32(Little, ExifAt(Camera(t)));
    Get32Put32(Little, GpsAt(Camera(t), e));
    forall at: nat
      ensures Find(SlotsFor(Little, c, at), EXIF_IFD, 4, 1) == Some(c[n].value)
      ensures Find(SlotsFor(Little, c, at), GPS_IFD, 4, 1) == Some(c[n + 1].value)
    {
      FindsAt(c, at, n);
      FindsAt(c, at, n + 1);
    }
  }

  lemma EvenStart(a: nat, b: nat, c: nat)
    ensures (8 + (2 + 12 * a + 4) + (2 + 12 * b + 4) + (2 + 12 * c + 4)) % 2 == 0
  {
    Doubled(8 + (2 + 12 * a + 4) + (2 + 12 * b + 4) + (2 + 12 * c + 4), 13 + 6 * a + 6 * b + 6 * c);
  }

  // ---- the data area ---------------------------------------------------------------------------------------------

  /** Every value outside its slot has a place of its own: the slot holds its offset, the bytes are
      there, at an even offset, and the next value begins behind them. */
  lemma {:induction false} ValueHasItsPlace(out: bytes, fs: seq<Field>, at: nat, k: nat)
    requires Holds(out, at, fs) && at % 2 == 0 && k < |fs| && |fs[k].value| > 4
    ensures var off := at + OutsideAll(fs[..k]);
            && SlotsFor(Little, fs, at)[k].value == Put32(Little, off)
            && off % 2 == 0 && off + |fs[k].value| <= at + OutsideAll(fs[..k + 1]) <= |out|
            && out[off..off + |fs[k].value|] == fs[k].value
    decreases k
  {
    hide Holds, Outside, Put32, OutsideAll;
    HoldsFirst(out, at, fs);
    EvenOne(fs[0]);
    OutsideStep(fs, k);
    if k == 0 {
      RoomFor(fs[0]);
      OutsideOfOne(fs);
      InBounds(out, at, fs, 0);
    } else {
      ValueHasItsPlace(out, fs[1..], at + Outside(fs[0]), k - 1);
      Tails(fs, k);
    }
  }

  lemma Tails(fs: seq<Field>, k: nat)
    requires 0 < k < |fs|
    ensures fs[1..][..k - 1] == fs[..k][1..] && fs[1..][..k] == fs[..k + 1][1..] && fs[1..][k - 1] == fs[k]
  {
  }

  lemma OutsideStep(fs: seq<Field>, k: nat)
    requires k < |fs|
    ensures k > 0 ==> OutsideAll(fs[..k]) == Outside(fs[0]) + OutsideAll(fs[..k][1..])
    ensures OutsideAll(fs[..k + 1]) == Outside(fs[0]) + OutsideAll(fs[..k + 1][1..])
    ensures k == 0 ==> OutsideAll(fs[..k]) == 0
  {
  }

  lemma OutsideOfOne(fs: seq<Field>)
    requires fs != []
    ensures OutsideAll(fs[..1]) == Outside(fs[0])
  {
    assert fs[..1][1..] == [];
  }

  lemma RoomFor(f: Field)
    ensures |f.value| > 4 ==> Outside(f) >= |f.value|
  {
  }

  lemma {:induction false} InBounds(out: bytes, at: nat, fs: seq<Field>, k: nat)
    requires Holds(out, at, fs) && k < |fs|
    ensures at + OutsideAll(fs[..k + 1]) <= |out|
    decreases |fs|
  {
    hide Outside, Data;
    OutsideStep(fs, k);
    if k > 0 {
      HoldsFirst(out, at, fs);
      assert fs[1..][..k] == fs[..k + 1][1..];
      InBounds(out, at + Outside(fs[0]), fs[1..], k - 1);
    } else {
      OutsideOfOne(fs);
    }
  }

  // ---- the location ----------------------------------------------------------------------------------------------

  lemma PositionIsSound(t: Tags)
    ensures AllSound(Position(t))
  {
    hide Sexagesimal, Put32, Round, Abs;
    PairsLength(Sexagesimal(t.latitude));
    PairsLength(Sexagesimal(t.longitude));
    PairsLength([(Round(Abs(t.altitude) * 10.0), 10)]);
  }

  lemma PairsLength(ps: seq<Pair>)
    ensures |Pairs(ps)| == 8 * |ps|
  {
  }

  lemma PositionIsReproduced(t: Tags)
    requires |BlockBytes(t)| < U32
    ensures Reproduced(Little, BlockBytes(t), GpsSlots(BlockBytes(t)), Position(t))
    ensures HeaderOrder(BlockBytes(t)) == Some(Little)
  {
    hide Payload, PointedCamera, Exposure, Position, Holds, OutsideAll, SlotsFor, Placed, Child;
    hide HeaderOrder, SecondValues, ThirdValues, AllSound, Root;
    var c, e, p := PointedCamera(t), Exposure(t), Position(t);
    var out, at := BlockBytes(t), ThirdValues(c, e, p);
    BlockReadsBack(t);
    ValuesAreHeld(c, e, p);
    PositionIsSound(t);
    ThirdIsEven(c, e, p);
    forall k: nat | k < |p|
      ensures Placed(out, Little, p[k], SlotsFor(Little, p, at)[k])
    {
      ValuesReadBack(Little, out, p, at, k);
    }
  }

  lemma ThirdIsEven(c: seq<Field>, e: seq<Field>, p: seq<Field>)
    ensures ThirdValues(c, e, p) % 2 == 0 && ThirdValues(c, e, p) >= 8
  {
    hide OutsideAll;
    EvenStart(|c|, |e|, |p|);
    EvenOutside(c);
    EvenOutside(e);
  }

  lemma PositionFields(t: Tags)
    requires Located(t)
    ensures var p := Position(t);
            && FieldValue(p, 9, 2, 2) == None
            && FieldValue(p, 1, 2, 2) == Some([LatitudeRef(t), 0]) && FieldValue(p, 3, 2, 2) == Some([LongitudeRef(t), 0])
            && FieldValue(p, 2, 5, 3) == Some(Pairs(Sexagesimal(t.latitude)))
            && FieldValue(p, 4, 5, 3) == Some(Pairs(Sexagesimal(t.longitude)))
            && FieldValue(p, 5, 1, 1) == Some([AltitudeRef(t)])
            && FieldValue(p, 6, 5, 1) == if t.altitude == 0.0 then None else Some(Pairs([(Round(Abs(t.altitude) * 10.0), 10)]))
  {
    hide FieldValue, Sexagesimal, Pairs, Round, Abs, LatitudeRef, LongitudeRef, AltitudeRef;
    var p := Position(t);
    assert [LatitudeRef(t)] + [0] == [LatitudeRef(t), 0] && [LongitudeRef(t)] + [0] == [LongitudeRef(t), 0];
    FieldNowhere(p, 9, 2, 2);
    FieldAt(p, 0, 1, 2, 2);
    FieldAt(p, 1, 2, 5, 3);
    FieldAt(p, 2, 3, 2, 2);
    FieldAt(p, 3, 4, 5, 3);
    FieldAt(p, 4, 5, 1, 1);
    if t.altitude == 0.0 {
      FieldNowhere(p, 6, 5, 1);
    } else {
      FieldAt(p, 5, 6, 5, 1);
    }
  }

  lemma OneQuotient(n: nat, m: nat, rest: bytes)
    requires n < U32 && 0 < m < U32
    ensures var v := Put32(Little, n) + Put32(Little, m) + rest;
            Quotient(Little, v[..8]) == Some(n as real / m as real) && v[8..] == rest
  {
    hide Put32, Get32;
    TwoNumbers(Put32(Little, n), Put32(Little, m), rest);
    Get32Fits(Little, n);
    Get32Fits(Little, m);
  }

  lemma TwoNumbers(a: bytes, b: bytes, rest: bytes)
    requires |a| == 4 && |b| == 4
    ensures var v := a + b + rest;
            v[..8][..4] == a && v[..8][4..8] == b && v[8..] == rest
  {
  }

  lemma ThreeQuotients(a: Pair, b: Pair, c: Pair)
    requires a.0 < U32 && b.0 < U32 && c.0 < U32 && 0 < a.1 < U32 && 0 < b.1 < U32 && 0 < c.1 < U32
    ensures var v := Pairs([a, b, c]);
            && Quotient(Little, v[..8]) == Some(a.0 as real / a.1 as real)
            && Quotient(Little, v[8..16]) == Some(b.0 as real / b.1 as real)
            && Quotient(Little, v[16..24]) == Some(c.0 as real / c.1 as real)
  {
    hide Put32, Quotient;
    var v := Pairs([a, b, c]);
    assert [a, b, c][1..] == [b, c] && [b, c][1..] == [c] && [c][1..] == [];
    OneQuotient(a.0, a.1, Pairs([b, c]));
    OneQuotient(b.0, b.1, Pairs([c]));
    OneQuotient(c.0, c.1, []);
    assert Pairs([c]) == Put32(Little, c.0) + Put32(Little, c.1) + [];
    assert v[8..16] == v[8..][..8] && v[16..24] == v[8..][8..][..8];
  }

  /** What is written of a coordinate, in degrees. */
  function Decimal(value: real): real
    requires value >= 0.0
  {
    DegreesOf(value) as real + MinutesOf(value) as real / 60.0 + HundredthsOf(value) as real / 360000.0
  }

  lemma HundredthsAreSmall(value: real)
    requires value >= 0.0
    ensures HundredthsOf(value) <= 6000 && MinutesOf(value) <= 59
    ensures -1.0 / 720000.0 <= Decimal(value) - value <= 1.0 / 720000.0
  {
    RestIsSmall(value);
    var s := Rest(value) * 3600.0 * 100.0;
    assert 0.0 <= s < 6000.0;
    assert HundredthsOf(value) as real <= s + 0.5 < HundredthsOf(value) as real + 1.0;
    assert Decimal(value) - value == (HundredthsOf(value) as real - s) / 360000.0;
  }

  /** A coordinate within its limit is never written beyond it. */
  lemma WithinLimit(value: real, limit: nat)
    requires 0.0 <= value <= limit as real && HundredthsOf(value) < 6000
    ensures Decimal(value) <= limit as real
  {
    hide HundredthsOf;
    HundredthsAreSmall(value);
    if DegreesOf(value) >= limit {
      assert value == limit as real && DegreesOf(value) == limit;
      Whole(value);
    }
  }

  lemma Whole(value: real)
    requires value >= 0.0 && value == DegreesOf(value) as real
    ensures MinutesOf(value) == 0 && HundredthsOf(value) == 0
  {
    assert Rest(value) == 0.0;
  }

  /** One coordinate read back: present exactly when its seconds stay below 60.00, and then the number
      that was written with its sign. */
  lemma AxisReadsBack(degrees: real, ref: byte, positive: byte, negative: byte, limit: nat)
    requires -(limit as real) <= degrees <= limit as real && limit < 1000
    requires positive != negative && ref == if degrees < 0.0 then negative else positive
    ensures var r := Axis(Little, Some([ref, 0]), Some(Pairs(Sexagesimal(degrees))), positive, negative, limit as real);
            && (r.Some? <==> HundredthsOf(Abs(degrees)) < 6000)
            && (r.Some? ==> r.value == if degrees < 0.0 then -Decimal(Abs(degrees)) else Decimal(Abs(degrees)))
  {
    hide Quotient, Pairs, DegreesOf, MinutesOf, HundredthsOf;
    var value := Abs(degrees);
    var d, m, h := DegreesOf(value), MinutesOf(value), HundredthsOf(value);
    HundredthsAreSmall(value);
    WholeDegrees(value, limit);
    ThreeQuotients((d, 1), (m, 1), (h, 100));
    Divided(d, m, h);
    if h < 6000 {
      WithinLimit(value, limit);
    }
  }

  lemma WholeDegrees(value: real, limit: nat)
    requires 0.0 <= value <= limit as real
    ensures DegreesOf(value) <= limit
  {
  }

  lemma Divided(d: nat, m: nat, h: nat)
    ensures d as real / 1.0 == d as real && m as real / 1.0 == m as real
    ensures (h as real / 100.0) / 3600.0 == h as real / 360000.0
    ensures h as real / 100.0 < 60.0 <==> h < 6000
  {
  }

  /** How the reader sees a written altitude. */
  lemma HeightReadsBack(t: Tags)
    requires t.altitude != 0.0 && Round(Abs(t.altitude) * 10.0) < U32
    ensures var h := Height(Little, Some(Pairs([(Round(Abs(t.altitude) * 10.0), 10)])), Some([AltitudeRef(t)]));
            h.Some? && -1.0 / 20.0 <= h.value - t.altitude <= 1.0 / 20.0
  {
    hide Quotient, Put32;
    var n := Round(Abs(t.altitude) * 10.0);
    OneQuotient(n, 10, []);
    assert [(n, 10)][1..] == [];
    var v := Put32(Little, n) + Put32(Little, 10) + [];
    assert Pairs([(n, 10)]) == v == v[..8];
  }

  lemma BlockMeaning(t: Tags)
    requires |BlockBytes(t)| < U32 && Located(t)
    ensures TiffLocation(BlockBytes(t))
            == Meaning(Little, None, Some([LatitudeRef(t), 0]), Some(Pairs(Sexagesimal(t.latitude))), Some([LongitudeRef(t), 0]),
                       Some(Pairs(Sexagesimal(t.longitude))),
                       if t.altitude == 0.0 then None else Some(Pairs([(Round(Abs(t.altitude) * 10.0), 10)])),
                       Some([AltitudeRef(t)]))
  {
    hide BlockBytes, GpsSlots, Meaning, TiffLocation, Value, FieldValue, Position, Reproduced, Sexagesimal, Pairs, Round, Abs, HeaderOrder;
    var out := BlockBytes(t);
    PositionIsReproduced(t);
    ReproductionMeansTheSame(Little, out, GpsSlots(out), Position(t));
    PositionFields(t);
    LocationOfSlots(out);
  }

  /** Writing a location and reading it: it comes back if and only if the seconds of both coordinates,
      rounded to hundredths, stay below 60.00; then each coordinate has the right sign and is within
      1/720000 of a degree, and the altitude is within five centimetres when its number fits. */
  lemma LocationRoundTrip(t: Tags)
    requires |BlockBytes(t)| < U32 && Located(t)
    requires -90.0 <= t.latitude <= 90.0 && -180.0 <= t.longitude <= 180.0
    ensures var l := TiffLocation(BlockBytes(t));
            && (l != NOWHERE <==> HundredthsOf(Abs(t.latitude)) < 6000 && HundredthsOf(Abs(t.longitude)) < 6000)
            && (l != NOWHERE ==>
                  && l.latitude.Some? && Close(l.latitude.value, t.latitude)
                  && l.longitude.Some? && Close(l.longitude.value, t.longitude)
                  && (t.altitude == 0.0 ==> l.altitude == None)
                  && (t.altitude != 0.0 && Round(Abs(t.altitude) * 10.0) < U32 ==>
                        l.altitude.Some? && -1.0 / 20.0 <= l.altitude.value - t.altitude <= 1.0 / 20.0))
  {
    hide BlockBytes, TiffLocation, Axis, Height, Sexagesimal, Pairs, HundredthsOf, Round;
    BlockMeaning(t);
    AxisReadsBack(t.latitude, LatitudeRef(t), NORTH, SOUTH, 90);
    AxisReadsBack(t.longitude, LongitudeRef(t), EAST, WEST, 180);
    DecimalIsClose(t.latitude);
    DecimalIsClose(t.longitude);
    if t.altitude == 0.0 {
      NoHeight(t);
    } else if Round(Abs(t.altitude) * 10.0) < U32 {
      HeightReadsBack(t);
    }
  }

  /** The same to within half of the last digit written, and on the same side of zero. */
  predicate Close(read: real, written: real) {
    && -1.0 / 720000.0 <= read - written <= 1.0 / 720000.0
    && (written > 0.0 ==> read >= 0.0) && (written < 0.0 ==> read <= 0.0)
  }

  lemma DecimalIsClose(degrees: real)
    ensures Close(if degrees < 0.0 then -Decimal(Abs(degrees)) else Decimal(Abs(degrees)), degrees)
  {
    HundredthsAreSmall(Abs(degrees));
  }

  lemma NoHeight(t: Tags)
    ensures Height(Little, None, Some([AltitudeRef(t)])) == None
  {
  }

  /** Without a location there is none to read. */
  lemma NoLocationRoundTrip(t: Tags)
    requires |BlockBytes(t)| < U32 && !Located(t)
    ensures TiffLocation(BlockBytes(t)) == NOWHERE
  {
    hide BlockBytes, GpsSlots, TiffLocation, Reproduced;
    PositionIsReproduced(t);
    var out := BlockBytes(t);
    LocationOfSlots(out);
    NoSlots(out, GpsSlots(out));
    NothingMeansNowhere(Little, out);
  }

  lemma NoSlots(out: bytes, ss: seq<Slot>)
    requires Reproduced(Little, out, ss, [])
    ensures ss == []
  {
  }

  // ---- a coordinate that is lost ---------------------------------------------------------------------------------

  /** Seconds round to 60.00 exactly from 59.995 on. */
  lemma RoundsToSixty(value: real)
    requires value >= 0.0
    ensures HundredthsOf(value) >= 6000 <==> Rest(value) * 3600.0 >= 59.995
    ensures HundredthsOf(value) <= 6000
  {
    hide Rest;
    var r := Rest(value);
    assert r * 3600.0 * 100.0 < 6000.0;
  }

  /** Nothing but a latitude of 59.996 seconds, on the Greenwich meridian. */
  const ALMOST_A_MINUTE := Tags([], [], [], [], [], [], [], (0, 0), (0, 0), (0, 0), 0, 59.996 / 3600.0, 0.0, 0.0)

  lemma AlmostRoundsUp()
    ensures HundredthsOf(Abs(ALMOST_A_MINUTE.latitude)) == 6000
  {
    var value := 59.996 / 3600.0;
    assert DegreesOf(value) == 0;
    assert MinutesOf(value) == 0;
    RoundsToSixty(value);
  }

  lemma PairValues(d: real)
    ensures |Pairs(Sexagesimal(d))| == 24
  {
    PairsLength(Sexagesimal(d));
  }

  lemma AlmostIsShort()
    ensures |BlockBytes(ALMOST_A_MINUTE)| < U32
  {
    hide Payload, Pairs, Sexagesimal, Put32;
    var t := ALMOST_A_MINUTE;
    var c, e, p := PointedCamera(t), Exposure(t), Position(t);
    ValuesAreHeld(c, e, p);
    PairValues(t.latitude);
    PairValues(t.longitude);
    assert |c| == 2 && |e| == 0 && |p| == 5;
    SmallValues(c);
    SmallValues(p);
  }

  lemma {:induction false} SmallValues(fs: seq<Field>)
    requires forall f :: f in fs ==> |f.value| <= 24
    ensures OutsideAll(fs) <= 25 * |fs|
  {
    if fs != [] {
      assert fs[0] in fs && forall f :: f in fs[1..] ==> f in fs;
      SmallValues(fs[1..]);
    }
  }

  /** A position a server may be given, which it writes and cannot read back. */
  lemma SixtySecondsAreLost()
    ensures Located(ALMOST_A_MINUTE) && |BlockBytes(ALMOST_A_MINUTE)| < U32
    ensures TiffLocation(BlockBytes(ALMOST_A_MINUTE)) == NOWHERE
  {
    hide BlockBytes, TiffLocation, HundredthsOf;
    AlmostIsShort();
    AlmostRoundsUp();
    LocationRoundTrip(ALMOST_A_MINUTE);
  }
}
