/** The Exif writer of internal/exifwrite/exifwrite.go: three directories and a data area, their
    offsets patched in on a second pass. Coordinates are exact reals here. */
module ExifWrite {
  import opened Bytes
  import opened Tiff
  import opened TiffFilter

  // ---- entries -----------------------------------------------------------------------------------------------

  type Pair = (nat, nat)

  function Ascii(tag: nat, text: bytes): Field { Field(tag, 2, |text| + 1, text + [0]) }

  function Short(tag: nat, value: nat): Field { Field(tag, 3, 1, Put16(Little, value)) }

  function ByteValue(tag: nat, value: byte): Field { Field(tag, 1, 1, [value]) }

  function Pairs(ps: seq<Pair>): (b: bytes)
    ensures |b| == 8 * |ps|
  {
    if ps == [] then [] else Put32(Little, ps[0].0) + Put32(Little, ps[0].1) + Pairs(ps[1..])
  }

  function Rationals(tag: nat, ps: seq<Pair>): Field { Field(tag, 5, |ps|, Pairs(ps)) }

  function Pointer(tag: nat): Field { Field(tag, 4, 1, Zeros(4)) }

  function Abs(x: real): (r: real)
    ensures r >= 0.0
  {
    if x < 0.0 then -x else x
  }

  /** math.Round of a number that is not negative. */
  function Round(x: real): (n: nat)
    requires x >= 0.0
  {
    (x + 0.5).Floor
  }

  /** sexagesimal: whole degrees, whole minutes, and seconds to two decimal places. */
  function Sexagesimal(degrees: real): (ps: seq<Pair>)
    ensures |ps| == 3
  {
    var value := Abs(degrees);
    [(DegreesOf(value), 1), (MinutesOf(value), 1), (HundredthsOf(value), 100)]
  }

  function DegreesOf(value: real): nat
    requires value >= 0.0
  {
    value.Floor
  }

  function MinutesOf(value: real): nat
    requires value >= 0.0
  {
    ((value - DegreesOf(value) as real) * 60.0).Floor
  }

  function HundredthsOf(value: real): nat
    requires value >= 0.0
  {
    Round(Rest(value) * 3600.0 * 100.0)
  }

  /** What degrees and minutes leave over, in degrees. */
  function Rest(value: real): (r: real)
    requires value >= 0.0
    ensures 0.0 <= r < 1.0 / 60.0
  {
    RestIsSmall(value);
    value - DegreesOf(value) as real - MinutesOf(value) as real / 60.0
  }

  lemma RestIsSmall(value: real)
    requires value >= 0.0
    ensures MinutesOf(value) <= 59
    ensures var r := value - DegreesOf(value) as real - MinutesOf(value) as real / 60.0;
            0.0 <= r < 1.0 / 60.0
  {
    var part := value - DegreesOf(value) as real;
    assert 0.0 <= part < 1.0;
    var m := MinutesOf(value) as real;
    assert m <= part * 60.0 < m + 1.0;
  }

  // ---- directories -------------------------------------------------------------------------------------------

  datatype Tags = Tags(make: bytes, model: bytes, software: bytes, artist: bytes, copyright: bytes, lensModel: bytes,
                       taken: bytes, exposure: Pair, aperture: Pair, focalLength: Pair, iso: nat,
                       latitude: real, longitude: real, altitude: real)

  function Text(tag: nat, text: bytes): seq<Field> { if text == [] then [] else [Ascii(tag, text)] }

  function Ratio(tag: nat, p: Pair): seq<Field> { if p == (0, 0) then [] else [Rationals(tag, [p])] }

  function Camera(t: Tags): seq<Field> {
    Text(0x010F, t.make) + Text(0x0110, t.model) + Text(0x0131, t.software) + Text(0x013B, t.artist)
    + Text(0x8298, t.copyright) + [Pointer(EXIF_IFD), Pointer(GPS_IFD)]
  }

  function Exposure(t: Tags): seq<Field> {
    Ratio(0x829A, t.exposure) + Ratio(0x829D, t.aperture) + (if t.iso > 0 then [Short(0x8827, t.iso)] else [])
    + Text(0x9003, t.taken) + Ratio(0x920A, t.focalLength) + Text(0xA434, t.lensModel)
  }

  predicate Located(t: Tags) { t.latitude != 0.0 || t.longitude != 0.0 }

  function LatitudeRef(t: Tags): byte { if t.latitude < 0.0 then SOUTH else NORTH }
  function LongitudeRef(t: Tags): byte { if t.longitude < 0.0 then WEST else EAST }
  function AltitudeRef(t: Tags): byte { if t.altitude < 0.0 then 1 else 0 }

  function Position(t: Tags): seq<Field> {
    if !Located(t) then []
    else
      [Ascii(1, [LatitudeRef(t)]), Rationals(2, Sexagesimal(t.latitude)), Ascii(3, [LongitudeRef(t)]),
       Rationals(4, Sexagesimal(t.longitude)), ByteValue(5, AltitudeRef(t))]
      + (if t.altitude == 0.0 then [] else [Rationals(6, [(Round(Abs(t.altitude) * 10.0), 10)])])
  }

  method CameraDirectory(t: Tags) returns (entries: seq<Field>)
    ensures entries == Camera(t)
  {
    hide Ascii, Pointer;
    entries := [];
    if t.make != [] {
      entries := entries + [Ascii(0x010F, t.make)];
    }
    assert entries == Text(0x010F, t.make);
    if t.model != [] {
      entries := entries + [Ascii(0x0110, t.model)];
    }
    assert entries == Text(0x010F, t.make) + Text(0x0110, t.model);
    if t.software != [] {
      entries := entries + [Ascii(0x0131, t.software)];
    }
    assert entries == Text(0x010F, t.make) + Text(0x0110, t.model) + Text(0x0131, t.software);
    if t.artist != [] {
      entries := entries + [Ascii(0x013B, t.artist)];
    }
    ghost var four := Text(0x010F, t.make) + Text(0x0110, t.model) + Text(0x0131, t.software) + Text(0x013B, t.artist);
    assert entries == four;
    if t.copyright != [] {
      entries := entries + [Ascii(0x8298, t.copyright)];
    }
    assert entries == four + Text(0x8298, t.copyright);
    entries := entries + [Pointer(EXIF_IFD)];
    entries := entries + [Pointer(GPS_IFD)];
  }

  method ExposureDirectory(t: Tags) returns (entries: seq<Field>)
    ensures entries == Exposure(t)
  {
    hide Ascii, Rationals, Short;
    entries := [];
    if t.exposure != (0, 0) {
      entries := entries + [Rationals(0x829A, [t.exposure])];
    }
    assert entries == Ratio(0x829A, t.exposure);
    if t.aperture != (0, 0) {
      entries := entries + [Rationals(0x829D, [t.aperture])];
    }
    assert entries == Ratio(0x829A, t.exposure) + Ratio(0x829D, t.aperture);
    if t.iso > 0 {
      entries := entries + [Short(0x8827, t.iso)];
    }
    ghost var three := Ratio(0x829A, t.exposure) + Ratio(0x829D, t.aperture) + (if t.iso > 0 then [Short(0x8827, t.iso)] else []);
    assert entries == three;
    if t.taken != [] {
      entries := entries + [Ascii(0x9003, t.taken)];
    }
    assert entries == three + Text(0x9003, t.taken);
    if t.focalLength != (0, 0) {
      entries := entries + [Rationals(0x920A, [t.focalLength])];
    }
    assert entries == three + Text(0x9003, t.taken) + Ratio(0x920A, t.focalLength);
    if t.lensModel != [] {
      entries := entries + [Ascii(0xA434, t.lensModel)];
    }
  }

  method LocationDirectory(t: Tags) returns (entries: seq<Field>)
    ensures entries == Position(t)
  {
    hide Ascii, Rationals, ByteValue, Sexagesimal, Round, Abs;
    entries := [];
    if t.latitude != 0.0 || t.longitude != 0.0 {
      var latRef, lonRef := NORTH, EAST;
      if t.latitude < 0.0 {
        latRef := SOUTH;
      }
      if t.longitude < 0.0 {
        lonRef := WEST;
      }
      assert latRef == LatitudeRef(t) && lonRef == LongitudeRef(t);
      entries := entries + [Ascii(1, [latRef])];
      entries := entries + [Rationals(2, Sexagesimal(t.latitude))];
      entries := entries + [Ascii(3, [lonRef])];
      entries := entries + [Rationals(4, Sexagesimal(t.longitude))];
      var altitudeRef := 0;
      if t.altitude < 0.0 {
        altitudeRef := 1;
      }
      assert altitudeRef == AltitudeRef(t);
      entries := entries + [ByteValue(5, altitudeRef)];
      assert entries == [Ascii(1, [LatitudeRef(t)]), Rationals(2, Sexagesimal(t.latitude)), Ascii(3, [LongitudeRef(t)]),
                         Rationals(4, Sexagesimal(t.longitude)), ByteValue(5, AltitudeRef(t))];
      if t.altitude != 0.0 {
        entries := entries + [Rationals(6, [(Round(Abs(t.altitude) * 10.0), 10)])];
      }
    }
  }

  // ---- layout ------------------------------------------------------------------------------------------------

  function DirSize(fs: seq<Field>): nat { 2 + 12 * |fs| + 4 }

  /** The entries that point at the other two directories, filled in. */
  function Pointed(fs: seq<Field>, exif: nat, gps: nat): (r: seq<Field>)
    ensures |r| == |fs|
  {
    if fs == [] then []
    else
      var f := fs[0];
      [if f.tag == EXIF_IFD then f.(value := Put32(Little, exif))
       else if f.tag == GPS_IFD then f.(value := Put32(Little, gps)) else f]
      + Pointed(fs[1..], exif, gps)
  }

  /** The payload: three directories one behind the other, then the values of each that do not fit its
      slots. */
  function Payload(camera: seq<Field>, exposure: seq<Field>, position: seq<Field>): bytes {
    var at := ValuesFrom(camera, exposure, position);
    Head(Little) + DirBytes(Little, camera, at) + DirBytes(Little, exposure, at + OutsideAll(camera))
    + DirBytes(Little, position, at + OutsideAll(camera) + OutsideAll(exposure))
    + Data(camera) + Data(exposure) + Data(position)
  }

  function ExifAt(camera: seq<Field>): nat { 8 + DirSize(camera) }

  function GpsAt(camera: seq<Field>, exposure: seq<Field>): nat { ExifAt(camera) + DirSize(exposure) }

  function ValuesFrom(camera: seq<Field>, exposure: seq<Field>, position: seq<Field>): nat {
    GpsAt(camera, exposure) + DirSize(position)
  }

  /** A directory before its offsets are known: zeros wherever one belongs. */
  function BlankRows(fs: seq<Field>): (rows: bytes)
    ensures |rows| == 12 * |fs|
  {
    if fs == [] then [] else Row(Little, fs[0], 0) + BlankRows(fs[1..])
  }

  function BlankDir(fs: seq<Field>): (b: bytes)
    ensures |b| == DirSize(fs)
  {
    Put16(Little, |fs|) + BlankRows(fs) + Zeros(4)
  }

  lemma {:induction false} BlankAppend(fs: seq<Field>, f: Field)
    ensures BlankRows(fs + [f]) == BlankRows(fs) + Row(Little, f, 0)
  {
    hide Row;
    if fs != [] {
      assert (fs + [f])[1..] == fs[1..] + [f];
      BlankAppend(fs[1..], f);
    } else {
      assert (fs + [f])[1..] == [];
    }
  }

  /** appendDir. */
  method AppendDir(buffer: bytes, fs: seq<Field>) returns (out: bytes)
    ensures out == buffer + BlankDir(fs)
  {
    hide Put16, Put32, BlankRows;
    out := buffer + Put16(Little, |fs|);
    NoBlankRows();
    var i := 0;
    assert fs[..0] == [];
    while i < |fs|
      invariant 0 <= i <= |fs| && out == buffer + Put16(Little, |fs|) + BlankRows(fs[..i])
    {
      var f := fs[i];
      ghost var before := out;
      out := out + Put16(Little, f.tag);
      out := out + Put16(Little, f.kind);
      out := out + Put32(Little, f.count);
      out := out + (if |f.value| > 4 then Put32(Little, 0) else f.value + Zeros(4 - |f.value|));
      RowAppended(before, f);
      BlankAppend(fs[..i], f);
      assert fs[..i] + [f] == fs[..i + 1];
      Assoc(buffer + Put16(Little, |fs|), BlankRows(fs[..i]), Row(Little, f, 0));
      i := i + 1;
    }
    assert fs[..i] == fs;
    out := out + Zeros(4);
    DirJoined(buffer, Put16(Little, |fs|), BlankRows(fs), Zeros(4));
  }

  lemma NoBlankRows()
    ensures BlankRows([]) == []
  {
  }

  lemma RowAppended(out: bytes, f: Field)
    ensures out + Put16(Little, f.tag) + Put16(Little, f.kind) + Put32(Little, f.count)
            + (if |f.value| > 4 then Put32(Little, 0) else f.value + Zeros(4 - |f.value|))
            == out + Row(Little, f, 0)
  {
    hide Put16, Put32;
  }

  lemma DirJoined(a: bytes, b: bytes, c: bytes, d: bytes)
    ensures a + b + c + d == a + (b + c + d)
  {
  }

  /** The data area of one directory, with the offset of each value as it is appended. */
  method AppendData(buffer: bytes, fs: seq<Field>) returns (out: bytes, offsets: seq<nat>)
    ensures out == buffer + Data(fs) && |offsets| == |fs|
    ensures forall k :: 0 <= k < |fs| ==> offsets[k] == |buffer| + OutsideAll(fs[..k])
  {
    hide Data, OutsideAll, DataOf, Outside;
    out, offsets := buffer, [];
    assert fs[..0] == [];
    NoOutside();
    var i := 0;
    while i < |fs|
      invariant 0 <= i <= |fs| && out == buffer + Data(fs[..i]) && |offsets| == i
      invariant forall k :: 0 <= k < i ==> offsets[k] == |buffer| + OutsideAll(fs[..k])
    {
      var f := fs[i];
      ghost var before := out;
      offsets := offsets + [|out|];
      if |f.value| > 4 {
        out := out + f.value;
        if |f.value| % 2 != 0 {
          out := out + [0];
        }
      }
      DataAppended(before, f);
      OutsideAppend(fs[..i], f);
      assert fs[..i] + [f] == fs[..i + 1];
      Assoc(buffer, Data(fs[..i]), DataOf(f));
      i := i + 1;
    }
    assert fs[..i] == fs;
  }

  lemma NoOutside()
    ensures Data([]) == [] && OutsideAll([]) == 0
  {
  }

  lemma DataAppended(out: bytes, f: Field)
    ensures out + DataOf(f) == if |f.value| <= 4 then out else if |f.value| % 2 != 0 then out + f.value + [0] else out + f.value
  {
    assert Zeros(1) == [0] && Zeros(0) == [];
    Assoc(out, f.value, [0]);
    assert |f.value| > 4 && |f.value| % 2 == 0 ==> DataOf(f) == f.value;
    assert |f.value| > 4 && |f.value| % 2 != 0 ==> DataOf(f) == f.value + [0];
  }

  lemma RowPatched(pre: bytes, f: Field, at: nat, post: bytes)
    ensures |pre + Row(Little, f, 0) + post| >= |pre| + 12
    ensures |f.value| > 4 ==>
              Splice(pre + Row(Little, f, 0) + post, |pre| + 8, Put32(Little, at)) == pre + Row(Little, f, at) + post
    ensures |f.value| <= 4 ==> Row(Little, f, 0) == Row(Little, f, at)
  {
    hide Put16, Put32;
    if |f.value| > 4 {
      var head := Put16(Little, f.tag) + Put16(Little, f.kind) + Put32(Little, f.count);
      SlotPatched(pre, head, Put32(Little, 0), Put32(Little, at), post);
    }
  }

  lemma SlotPatched(pre: bytes, head: bytes, zero: bytes, offset: bytes, post: bytes)
    requires |head| == 8 && |zero| == 4 && |offset| == 4
    ensures Splice(pre + (head + zero) + post, |pre| + 8, offset) == pre + (head + offset) + post
  {
    var out := pre + (head + zero) + post;
    assert out[..|pre| + 8] == pre + head;
    assert out[|pre| + 12..] == post;
  }

  /** The second pass over one directory. */
  method PatchDir(buffer: bytes, from: nat, fs: seq<Field>, offsets: seq<nat>, ghost pre: bytes, ghost post: bytes, ghost at: nat)
      returns (out: bytes)
    requires buffer == pre + BlankRows(fs) + post && from == |pre| && |offsets| == |fs|
    requires forall k :: 0 <= k < |fs| ==> offsets[k] == at + OutsideAll(fs[..k])
    ensures out == pre + Rows(Little, fs, at) + post
  {
    hide Row, Put16, Put32, Rows, BlankRows, OutsideAll, Splice;
    out := buffer;
    var cursor, i := from, 0;
    assert fs[..0] == [] && fs[0..] == fs && pre + [] == pre;
    NoRows(Little, at);
    while i < |fs|
      invariant 0 <= i <= |fs| && cursor == from + 12 * i
      invariant out == (pre + Rows(Little, fs[..i], at)) + (BlankRows(fs[i..]) + post)
    {
      var f := fs[i];
      ghost var done := pre + Rows(Little, fs[..i], at);
      ghost var rest := BlankRows(fs[i + 1..]) + post;
      BlankFirst(fs[i..]);
      assert fs[i..][1..] == fs[i + 1..] && fs[i..][0] == f;
      Assoc(Row(Little, f, 0), BlankRows(fs[i + 1..]), post);
      Assoc(done, Row(Little, f, 0), rest);
      assert out == done + Row(Little, f, 0) + rest;
      RowPatched(done, f, offsets[i], rest);
      if |f.value| > 4 {
        out := Splice(out, cursor + 8, Put32(Little, offsets[i]));
      }
      RowsAppend(Little, fs[..i], f, at);
      assert fs[..i] + [f] == fs[..i + 1];
      Assoc(pre, Rows(Little, fs[..i], at), Row(Little, f, offsets[i]));
      cursor := cursor + 12;
      i := i + 1;
    }
    assert fs[..i] == fs && fs[i..] == [];
    NoBlankRows();
    assert [] + post == post;
  }

  lemma BlankFirst(fs: seq<Field>)
    requires fs != []
    ensures BlankRows(fs) == Row(Little, fs[0], 0) + BlankRows(fs[1..])
  {
  }

  lemma BlankDirSplit(pre: bytes, fs: seq<Field>, post: bytes)
    ensures pre + BlankDir(fs) + post == (pre + Put16(Little, |fs|)) + BlankRows(fs) + (Zeros(4) + post)
  {
    hide Put16, BlankRows, Zeros;
  }

  lemma DirSplit(pre: bytes, fs: seq<Field>, at: nat, post: bytes)
    ensures (pre + Put16(Little, |fs|)) + Rows(Little, fs, at) + (Zeros(4) + post) == pre + DirBytes(Little, fs, at) + post
  {
    hide Put16, Rows, Zeros;
  }

  method PatchDirectory(buffer: bytes, from: nat, fs: seq<Field>, offsets: seq<nat>, ghost pre: bytes, ghost post: bytes, ghost at: nat)
      returns (out: bytes)
    requires buffer == pre + BlankDir(fs) + post && from == |pre| && |offsets| == |fs|
    requires forall k :: 0 <= k < |fs| ==> offsets[k] == at + OutsideAll(fs[..k])
    ensures out == pre + DirBytes(Little, fs, at) + post
  {
    hide BlankDir, BlankRows, Put16, DirBytes, Zeros, Rows, OutsideAll;
    BlankDirSplit(pre, fs, post);
    out := PatchDir(buffer, from + 2, fs, offsets, pre + Put16(Little, |fs|), Zeros(4) + post, at);
    DirSplit(pre, fs, at, post);
  }

  lemma {:induction false} PointedAppend(fs: seq<Field>, f: Field, exif: nat, gps: nat)
    ensures Pointed(fs + [f], exif, gps) == Pointed(fs, exif, gps) + Pointed([f], exif, gps)
  {
    hide Put32;
    if fs == [] {
      assert fs + [f] == [f];
    } else {
      assert (fs + [f])[1..] == fs[1..] + [f];
      PointedAppend(fs[1..], f, exif, gps);
    }
  }

  method FillPointers(fs: seq<Field>, exif: nat, gps: nat) returns (r: seq<Field>)
    ensures r == Pointed(fs, exif, gps)
  {
    hide Put32;
    r := fs;
    assert fs[..0] == [] && Pointed([], exif, gps) == [];
    for i := 0 to |fs|
      invariant |r| == |fs| && r[..i] == Pointed(fs[..i], exif, gps) && r[i..] == fs[i..]
    {
      PointedAppend(fs[..i], fs[i], exif, gps);
      assert fs[..i] + [fs[i]] == fs[..i + 1] && [fs[i]][1..] == [];
      assert r[i] == r[i..][0] == fs[i];
      ghost var before := r;
      if r[i].tag == EXIF_IFD {
        r := r[i := r[i].(value := Put32(Little, exif))];
      } else if r[i].tag == GPS_IFD {
        r := r[i := r[i].(value := Put32(Little, gps))];
      }
      assert r[..i + 1] == before[..i] + [r[i]];
      assert r[i + 1..] == before[i..][1..] && fs[i..][1..] == fs[i + 1..];
    }
    assert fs[..|fs|] == fs && r[..|fs|] == r;
  }

  /** layout: the directories with zeros for offsets, the data area, and the second pass. */
  method LayOut(first: seq<Field>, exposure: seq<Field>, position: seq<Field>) returns (out: bytes)
    ensures out == Payload(Pointed(first, ExifAt(first), GpsAt(first, exposure)), exposure, position)
  {
    hide Put32, Data, OutsideAll, BlankDir, DirBytes, Pointed, Head, Payload;
    var next := 8 + DirSize(first);
    var camera := FillPointers(first, next, next + DirSize(exposure));
    ghost var h, at := Head(Little), ValuesFrom(camera, exposure, position);
    HeadIs();
    out := LITTLE_MAGIC + Put32(Little, 8);
    out := AppendDir(out, camera);
    out := AppendDir(out, exposure);
    out := AppendDir(out, position);
    assert |out| == at;
    var o1, o2, o3;
    out, o1 := AppendData(out, camera);
    out, o2 := AppendData(out, exposure);
    out, o3 := AppendData(out, position);
    ghost var a, b, c := BlankDir(camera), BlankDir(exposure), BlankDir(position);
    ghost var values := Data(camera) + Data(exposure) + Data(position);
    assert |h| == 8;
    Grouped(h, a, b, c, Data(camera), Data(exposure), Data(position));
    out := PatchDirectory(out, 8, camera, o1, h, b + c + values, at);
    ghost var d := DirBytes(Little, camera, at);
    Shifted(h, d, b, c, values);
    out := PatchDirectory(out, next, exposure, o2, h + d, c + values, at + OutsideAll(camera));
    ghost var e := DirBytes(Little, exposure, at + OutsideAll(camera));
    Assoc(h + d + e, c, values);
    out := PatchDirectory(out, next + DirSize(exposure), position, o3, h + d + e, values, at + OutsideAll(camera) + OutsideAll(exposure));
    PayloadIs(camera, exposure, position);
  }

  lemma HeadIs()
    ensures Head(Little) == LITTLE_MAGIC + Put32(Little, 8)
  {
  }

  lemma Grouped(h: bytes, a: bytes, b: bytes, c: bytes, x: bytes, y: bytes, z: bytes)
    ensures h + a + b + c + x + y + z == h + a + (b + c + (x + y + z))
  {
  }

  lemma Shifted(h: bytes, d: bytes, b: bytes, c: bytes, values: bytes)
    ensures h + d + (b + c + values) == (h + d) + b + (c + values)
  {
  }

  lemma PayloadIs(camera: seq<Field>, exposure: seq<Field>, position: seq<Field>)
    ensures var at := ValuesFrom(camera, exposure, position);
            var h, d := Head(Little), DirBytes(Little, camera, at);
            var e := DirBytes(Little, exposure, at + OutsideAll(camera));
            var f := DirBytes(Little, position, at + OutsideAll(camera) + OutsideAll(exposure));
            Payload(camera, exposure, position) == h + d + e + f + (Data(camera) + Data(exposure) + Data(position))
  {
    hide Head, DirBytes, Data, OutsideAll;
    var at := ValuesFrom(camera, exposure, position);
    var h, d := Head(Little), DirBytes(Little, camera, at);
    var e := DirBytes(Little, exposure, at + OutsideAll(camera));
    var f := DirBytes(Little, position, at + OutsideAll(camera) + OutsideAll(exposure));
    assert h + d + e + f + Data(camera) + Data(exposure) + Data(position)
        == h + d + e + f + (Data(camera) + Data(exposure) + Data(position));
  }

  /** Block, without its Exif identifier. */
  method Block(t: Tags) returns (out: bytes)
    ensures out == BlockBytes(t)
  {
    var camera := CameraDirectory(t);
    var exposure := ExposureDirectory(t);
    var position := LocationDirectory(t);
    out := LayOut(camera, exposure, position);
  }

  function PointedCamera(t: Tags): seq<Field> {
    Pointed(Camera(t), ExifAt(Camera(t)), GpsAt(Camera(t), Exposure(t)))
  }

  function BlockBytes(t: Tags): bytes { Payload(PointedCamera(t), Exposure(t), Position(t)) }
}
