/** Which entries of a TIFF payload are copied, and what makes a location, entry by entry and by the numbers
    of TIFF 6.0 and Exif 2.3. */
module TiffSelection {
  import opened Prelude
  import opened Bytes
  import opened Tiff
  import opened TiffFilter

  // ---- values -----------------------------------------------------------------------------------------------------

  /** The bytes of one value (section 2 of TIFF 6.0): bytes, texts, signed bytes and opaque bytes have one,
      shorts two, longs and floats four, rationals and doubles eight. */
  function Width(kind: nat): nat {
    if kind == 1 || kind == 2 || kind == 6 || kind == 7 then 1
    else if kind == 3 || kind == 8 then 2
    else if kind == 4 || kind == 9 || kind == 11 then 4
    else if kind == 5 || kind == 10 || kind == 12 then 8
    else 0
  }

  lemma WidthsAreExact(kind: nat)
    ensures TypeSize(kind) == Width(kind)
  {
  }

  /** A value of one to 4096 bytes, in its slot or inside the payload behind its header. */
  predicate Readable(order: Order, d: bytes, s: Slot)
    requires |s.value| == 4
  {
    var n := Width(s.kind) * s.count;
    0 < n <= 4096 && (n <= 4 || (8 <= Get32(order, s.value) && Get32(order, s.value) + n <= |d|))
  }

  function ValueOf(order: Order, d: bytes, s: Slot): bytes
    requires |s.value| == 4 && Readable(order, d, s)
  {
    var n := Width(s.kind) * s.count;
    if n <= 4 then s.value[..n] else d[Get32(order, s.value)..Get32(order, s.value) + n]
  }

  lemma ReadableExactly(order: Order, d: bytes, s: Slot)
    requires |s.value| == 4
    ensures EntryData(order, d, s).Some? <==> Readable(order, d, s)
    ensures Readable(order, d, s) ==> EntryData(order, d, s) == Some(ValueOf(order, d, s))
  {
    hide Get32;
    WidthsAreExact(s.kind);
  }

  // ---- the selection ------------------------------------------------------------------------------------------------

  /** Entry k is the first readable one of its tag, and its tag is listed and not excluded. */
  ghost predicate IsFirst(order: Order, d: bytes, ss: seq<Slot>, k: nat, g: Group, seen: set<nat>)
    requires forall s :: s in ss ==> |s.value| == 4
  {
    && k < |ss| && Allowed(g, ss[k].tag) && ss[k].tag !in seen && Readable(order, d, ss[k])
    && forall j: nat :: j < k ==> !(ss[j].tag == ss[k].tag && Readable(order, d, ss[j]))
  }

  /** Exactly those entries, in their order, each with its type, count and value. */
  ghost predicate Selects(order: Order, d: bytes, ss: seq<Slot>, g: Group, seen: set<nat>, at: seq<nat>, fs: seq<Field>)
    requires forall s :: s in ss ==> |s.value| == 4
  {
    && |at| == |fs|
    && (forall j :: 0 <= j < |at| ==> IsFirst(order, d, ss, at[j], g, seen)
                                      && fs[j] == FieldOf(order, d, ss[at[j]]))
    && (forall i, j :: 0 <= i < j < |at| ==> at[i] < at[j])
    && (forall k: nat :: IsFirst(order, d, ss, k, g, seen) ==> k in at)
  }

  function FieldOf(order: Order, d: bytes, s: Slot): Field
    requires |s.value| == 4 && Readable(order, d, s)
  {
    Field(s.tag, s.kind, s.count, ValueOf(order, d, s))
  }

  /** What is first behind the first entry. */
  lemma FirstLater(order: Order, d: bytes, ss: seq<Slot>, k: nat, g: Group, seen: set<nat>)
    requires ss != [] && forall s :: s in ss ==> |s.value| == 4
    ensures var s := ss[0];
            var taken := Allowed(g, s.tag) && s.tag !in seen && Readable(order, d, s);
            IsFirst(order, d, ss, k + 1, g, seen) <==> IsFirst(order, d, ss[1..], k, g, if taken then seen + {s.tag} else seen)
  {
    hide Readable, Allowed;
    var rest := ss[1..];
    if k < |rest| {
      assert ss[k + 1] == rest[k];
      if forall j: nat :: j < k ==> !(rest[j].tag == rest[k].tag && Readable(order, d, rest[j])) {
        forall j: nat | 0 < j < k + 1
          ensures !(ss[j].tag == ss[k + 1].tag && Readable(order, d, ss[j]))
        {
          assert ss[j] == rest[j - 1];
        }
      } else {
        var j: nat :| j < k && rest[j].tag == rest[k].tag && Readable(order, d, rest[j]);
        assert ss[j + 1] == rest[j];
      }
    }
  }

  function Shifted(at: seq<nat>): (r: seq<nat>)
    ensures |r| == |at| && forall j :: 0 <= j < |at| ==> r[j] == at[j] + 1
  {
    seq(|at|, j requires 0 <= j < |at| => at[j] + 1)
  }

  lemma OnlyLater(order: Order, d: bytes, ss: seq<Slot>, g: Group, seen: set<nat>, at: seq<nat>, fs: seq<Field>)
    requires ss != [] && (forall s :: s in ss ==> |s.value| == 4) && Selects(order, d, ss[1..], g, seen, at, fs)
    requires !(Allowed(g, ss[0].tag) && ss[0].tag !in seen && Readable(order, d, ss[0]))
    ensures var r := Shifted(at);
            && (forall j :: 0 <= j < |r| ==> IsFirst(order, d, ss, r[j], g, seen))
            && (forall k: nat :: IsFirst(order, d, ss, k, g, seen) ==> k in r)
  {
    hide Readable, Allowed, IsFirst, FieldOf;
    var r := Shifted(at);
    NotTaken(order, d, ss, g, seen);
    forall j | 0 <= j < |r|
      ensures IsFirst(order, d, ss, r[j], g, seen)
    {
      FirstLater(order, d, ss, at[j], g, seen);
    }
    forall k: nat | IsFirst(order, d, ss, k, g, seen)
      ensures k in r
    {
      FirstLater(order, d, ss, k - 1, g, seen);
      var j :| 0 <= j < |at| && at[j] == k - 1;
      assert r[j] == k;
    }
  }

  lemma SelectsSkipped(order: Order, d: bytes, ss: seq<Slot>, g: Group, seen: set<nat>, at: seq<nat>, fs: seq<Field>)
    requires ss != [] && (forall s :: s in ss ==> |s.value| == 4) && Selects(order, d, ss[1..], g, seen, at, fs)
    requires !(Allowed(g, ss[0].tag) && ss[0].tag !in seen && Readable(order, d, ss[0]))
    ensures Selects(order, d, ss, g, seen, Shifted(at), fs)
  {
    hide Readable, Allowed, IsFirst, FieldOf;
    FieldsLater(order, d, ss, g, seen, at, fs);
    OnlyLater(order, d, ss, g, seen, at, fs);
  }

  lemma NotTaken(order: Order, d: bytes, ss: seq<Slot>, g: Group, seen: set<nat>)
    requires ss != [] && (forall s :: s in ss ==> |s.value| == 4)
    ensures IsFirst(order, d, ss, 0, g, seen) <==> Allowed(g, ss[0].tag) && ss[0].tag !in seen && Readable(order, d, ss[0])
  {
  }

  /** The entries behind the first are where they were, one further on. */
  lemma FieldsLater(order: Order, d: bytes, ss: seq<Slot>, g: Group, seen: set<nat>, at: seq<nat>, fs: seq<Field>)
    requires ss != [] && (forall s :: s in ss ==> |s.value| == 4) && Selects(order, d, ss[1..], g, seen, at, fs)
    ensures forall j :: 0 <= j < |at| ==>
              at[j] + 1 < |ss| && Readable(order, d, ss[at[j] + 1]) && fs[j] == FieldOf(order, d, ss[at[j] + 1])
  {
    hide Readable, Allowed, ValueOf;
    forall j | 0 <= j < |at|
      ensures at[j] + 1 < |ss| && Readable(order, d, ss[at[j] + 1]) && fs[j] == FieldOf(order, d, ss[at[j] + 1])
    {
      assert IsFirst(order, d, ss[1..], at[j], g, seen) && ss[1..][at[j]] == ss[at[j] + 1];
    }
  }

  lemma FirstAndLater(order: Order, d: bytes, ss: seq<Slot>, g: Group, seen: set<nat>, at: seq<nat>, fs: seq<Field>)
    requires ss != [] && (forall s :: s in ss ==> |s.value| == 4)
    requires Allowed(g, ss[0].tag) && ss[0].tag !in seen && Readable(order, d, ss[0])
    requires Selects(order, d, ss[1..], g, seen + {ss[0].tag}, at, fs)
    ensures var r := [0] + Shifted(at);
            && (forall j :: 0 <= j < |r| ==> IsFirst(order, d, ss, r[j], g, seen))
            && (forall k: nat :: IsFirst(order, d, ss, k, g, seen) ==> k in r)
  {
    hide Readable, Allowed, IsFirst, FieldOf;
    var r := [0] + Shifted(at);
    NotTaken(order, d, ss, g, seen);
    forall j | 0 <= j < |r|
      ensures IsFirst(order, d, ss, r[j], g, seen)
    {
      if j > 0 {
        FirstLater(order, d, ss, at[j - 1], g, seen);
      }
    }
    forall k: nat | IsFirst(order, d, ss, k, g, seen)
      ensures k in r
    {
      if k > 0 {
        FirstLater(order, d, ss, k - 1, g, seen);
        var j :| 0 <= j < |at| && at[j] == k - 1;
        assert r[j + 1] == k;
      } else {
        assert r[0] == 0;
      }
    }
  }

  lemma FirstField(order: Order, d: bytes, ss: seq<Slot>, at: seq<nat>, fs: seq<Field>)
    requires ss != [] && (forall s :: s in ss ==> |s.value| == 4) && Readable(order, d, ss[0]) && |at| == |fs|
    requires forall j :: 0 <= j < |at| ==>
               at[j] + 1 < |ss| && Readable(order, d, ss[at[j] + 1]) && fs[j] == FieldOf(order, d, ss[at[j] + 1])
    ensures var r, all := [0] + Shifted(at), [FieldOf(order, d, ss[0])] + fs;
            forall j :: 0 <= j < |r| ==> r[j] < |ss| && Readable(order, d, ss[r[j]]) && all[j] == FieldOf(order, d, ss[r[j]])
  {
    hide Readable, FieldOf;
    var r, all := [0] + Shifted(at), [FieldOf(order, d, ss[0])] + fs;
    forall j | 0 <= j < |r|
      ensures r[j] < |ss| && Readable(order, d, ss[r[j]]) && all[j] == FieldOf(order, d, ss[r[j]])
    {
      if j > 0 {
        assert r[j] == at[j - 1] + 1 && all[j] == fs[j - 1];
      }
    }
  }

  lemma SelectsTaken(order: Order, d: bytes, ss: seq<Slot>, g: Group, seen: set<nat>, at: seq<nat>, fs: seq<Field>)
    requires ss != [] && (forall s :: s in ss ==> |s.value| == 4)
    requires Allowed(g, ss[0].tag) && ss[0].tag !in seen && Readable(order, d, ss[0])
    requires Selects(order, d, ss[1..], g, seen + {ss[0].tag}, at, fs)
    ensures Selects(order, d, ss, g, seen, [0] + Shifted(at), [FieldOf(order, d, ss[0])] + fs)
  {
    hide Readable, Allowed, IsFirst, FieldOf;
    FieldsLater(order, d, ss, g, seen + {ss[0].tag}, at, fs);
    FirstField(order, d, ss, at, fs);
    FirstAndLater(order, d, ss, g, seen, at, fs);
  }

  lemma SelectsNothing(order: Order, d: bytes, g: Group, seen: set<nat>)
    ensures Selects(order, d, [], g, seen, [], [])
  {
  }

  /** Exactly the first readable entry of each listed tag is selected, with its type, its count and its
      value, in the order in which they stand. */
  lemma {:induction false} SelectIsExact(order: Order, d: bytes, ss: seq<Slot>, g: Group, seen: set<nat>) returns (at: seq<nat>)
    requires forall s :: s in ss ==> |s.value| == 4
    ensures Selects(order, d, ss, g, seen, at, Select(order, d, ss, g, seen))
  {
    hide Readable, Allowed, Selects, EntryData, ValueOf;
    if ss == [] {
      at := [];
      SelectsNothing(order, d, g, seen);
    } else {
      var s := ss[0];
      ReadableExactly(order, d, s);
      if Allowed(g, s.tag) && s.tag !in seen && Readable(order, d, s) {
        var rest := SelectIsExact(order, d, ss[1..], g, seen + {s.tag});
        at := [0] + Shifted(rest);
        SelectsTaken(order, d, ss, g, seen, rest, Select(order, d, ss[1..], g, seen + {s.tag}));
      } else {
        var rest := SelectIsExact(order, d, ss[1..], g, seen);
        at := Shifted(rest);
        SelectsSkipped(order, d, ss, g, seen, rest, Select(order, d, ss[1..], g, seen));
      }
    }
  }

  // ---- when there is a block ------------------------------------------------------------------------------------------

  ghost predicate NoneSelected(order: Order, d: bytes, ss: seq<Slot>, g: Group)
    requires forall s :: s in ss ==> |s.value| == 4
  {
    forall s :: s in ss ==> !(Allowed(g, s.tag) && Readable(order, d, s))
  }

  lemma {:induction false} NothingToSelect(order: Order, d: bytes, ss: seq<Slot>, g: Group, seen: set<nat>)
    requires (forall s :: s in ss ==> |s.value| == 4) && seen == {}
    ensures Select(order, d, ss, g, seen) == [] <==> NoneSelected(order, d, ss, g)
  {
    hide Readable, EntryData, Allowed;
    if ss != [] {
      ReadableExactly(order, d, ss[0]);
      NothingToSelect(order, d, ss[1..], g, seen);
      assert ss == [ss[0]] + ss[1..];
    }
  }

  /** A payload has a block of a category exactly when it is a TIFF, has a readable entry of a listed tag
      in that category's directories, and what is copied fits a segment of 65,535 bytes. */
  lemma BlockExactly(d: bytes, camera: bool)
    ensures Filtered(d, camera).Some? <==>
            HeaderOrder(d).Some? &&
            var order := HeaderOrder(d).value;
            var child := Child(order, d, if camera then 0x8769 else 0x8825);
            && (|| (camera && !NoneSelected(order, d, Root(order, d), CameraGroup))
                || (child.Some? && !NoneSelected(order, d, child.value, if camera then ExposureGroup else GpsGroup)))
            && BlockSize(FirstOf(order, d, camera), ChildOf(order, d, camera)) <= 65_527
  {
    hide NoneSelected, Select, Root, Child, Layout;
    if HeaderOrder(d).Some? {
      var order := HeaderOrder(d).value;
      var child := Child(order, d, PointerTag(camera));
      NothingToSelect(order, d, Root(order, d), CameraGroup, {});
      if child.Some? {
        NothingToSelect(order, d, child.value, if camera then ExposureGroup else GpsGroup, {});
      }
      LayoutSize(order, FirstOf(order, d, camera), ChildOf(order, d, camera), PointerTag(camera));
    }
  }

  /** Header, first directory with its pointer, second directory, and the values that do not fit their
      slots, each padded to an even length. */
  function BlockSize(first: seq<Field>, child: seq<Field>): nat {
    8 + (2 + 12 * |first| + 4) + OutsideAll(first) + (if child == [] then 0 else 12 + (2 + 12 * |child| + 4) + OutsideAll(child))
  }

  lemma LayoutSize(order: Order, first: seq<Field>, child: seq<Field>, pointerTag: nat)
    ensures |Layout(order, WithPointer(order, first, child, pointerTag), child)| == BlockSize(first, child)
  {
    hide OutsideAll, Data, Rows, Put16, Put32;
    HeadIsEight(order);
    if child != [] {
      OutsideAppend(first, WithPointer(order, first, child, pointerTag)[|first|]);
      SizesUnfold(child);
    }
    assert OutsideAll([]) == 0 && |Data([])| == 0 by { SizesUnfold([]); }
  }

  lemma SizesUnfold(fs: seq<Field>)
    ensures fs == [] ==> OutsideAll(fs) == 0 && Data(fs) == []
  {
  }

  // ---- the location -------------------------------------------------------------------------------------------------

  /** A coordinate by its entries: the letter, and whole or broken degrees, minutes and seconds. */
  ghost predicate Stands(order: Order, d: bytes, ss: seq<Slot>, refTag: nat, plus: byte, minus: byte, value: real)
    requires forall s :: s in ss ==> |s.value| == 4
  {
    var ref, at := Find(ss, refTag, 2, 2), Find(ss, refTag + 1, 5, 3);
    ref.Some? && at.Some? && (ref.value[0] == plus || ref.value[0] == minus) &&
    var off := Get32(order, at.value);
    && 8 <= off && off + 24 <= |d|
    && var n := (i: nat) requires i < 6 => Get32(order, d[off + 4 * i..off + 4 * i + 4]);
       && n(1) > 0 && n(3) > 0 && n(5) > 0 && n(2) < 60 * n(3) && n(4) < 60 * n(5)
       && var size := n(0) as real / n(1) as real + n(2) as real / n(3) as real / 60.0 + n(4) as real / n(5) as real / 3600.0;
          value == if ref.value[0] == minus then -size else size
  }

  lemma Below(n: nat, m: nat)
    requires m > 0
    ensures n as real / m as real >= 60.0 <==> n >= 60 * m
  {
    assert n as real / m as real * m as real == n as real;
    if n as real / m as real >= 60.0 {
      assert n as real / m as real * m as real >= 60.0 * m as real by { Scaled(n as real / m as real, m as real); }
    } else {
      assert n as real / m as real * m as real < 60.0 * m as real by { Scaled(n as real / m as real, m as real); }
    }
  }

  lemma Scaled(x: real, m: real)
    requires m > 0.0
    ensures x >= 60.0 <==> x * m >= 60.0 * m
  {
  }

  lemma TwoHalves(d: bytes, at: nat)
    requires at + 8 <= |d|
    ensures d[at..at + 8][..4] == d[at..at + 4] && d[at..at + 8][4..8] == d[at + 4..at + 8]
  {
    SliceWithin(d, at, 8, 0, 4);
    SliceWithin(d, at, 8, 4, 8);
  }

  lemma CoordinateStands(order: Order, d: bytes, ss: seq<Slot>, refTag: nat, plus: byte, minus: byte, limit: real)
    requires forall s :: s in ss ==> |s.value| == 4
    ensures var c := Coordinate(order, d, ss, refTag, plus, minus, limit);
            c.Some? ==> Stands(order, d, ss, refTag, plus, minus, c.value)
  {
    hide Get32, Find;
    var c := Coordinate(order, d, ss, refTag, plus, minus, limit);
    if c.Some? {
      var off := Get32(order, Find(ss, refTag + 1, 5, 3).value);
      TwoHalves(d, off);
      TwoHalves(d, off + 8);
      TwoHalves(d, off + 16);
      Below(Get32(order, d[off + 8..off + 12]), Get32(order, d[off + 12..off + 16]));
      Below(Get32(order, d[off + 16..off + 20]), Get32(order, d[off + 20..off + 24]));
    }
  }

  /** A payload that gives a location has both coordinates in its GPS directory, under the tags and letters
      of Exif 2.3: N 78 and S 83 at tag 1, E 69 and W 87 at tag 3, degrees, minutes and seconds at 2 and 4;
      it is within the globe; and its receiver had a fix, for the letter at tag 9 is not V 86. */
  lemma LocationIsLettered(d: bytes)
    requires TiffLocation(d) != NOWHERE
    ensures HeaderOrder(d).Some? && Child(HeaderOrder(d).value, d, 0x8825).Some?
    ensures var order, l := HeaderOrder(d).value, TiffLocation(d);
            var ss := Child(order, d, 0x8825).value;
            && l.latitude.Some? && l.longitude.Some?
            && Stands(order, d, ss, 1, 78, 83, l.latitude.value) && -90.0 <= l.latitude.value <= 90.0
            && Stands(order, d, ss, 3, 69, 87, l.longitude.value) && -180.0 <= l.longitude.value <= 180.0
            && (Find(ss, 9, 2, 2).Some? ==> Find(ss, 9, 2, 2).value[0] != 86)
  {
    hide Coordinate, Stands, Altitude, Find, Get32;
    LocationIsWhole(d);
    var order := HeaderOrder(d).value;
    var ss := Child(order, d, 0x8825).value;
    CoordinateStands(order, d, ss, 1, 78, 83, 90.0);
    CoordinateStands(order, d, ss, 3, 69, 87, 180.0);
  }

  lemma StandingIsRead(order: Order, d: bytes, ss: seq<Slot>, refTag: nat, plus: byte, minus: byte, limit: real, value: real)
    requires (forall s :: s in ss ==> |s.value| == 4) && plus != minus
    requires Stands(order, d, ss, refTag, plus, minus, value) && -limit <= value <= limit
    ensures Coordinate(order, d, ss, refTag, plus, minus, limit) == Some(value)
  {
    hide Get32, Find;
    var off := Get32(order, Find(ss, refTag + 1, 5, 3).value);
    TwoHalves(d, off);
    TwoHalves(d, off + 8);
    TwoHalves(d, off + 16);
    Below(Get32(order, d[off + 8..off + 12]), Get32(order, d[off + 12..off + 16]));
    Below(Get32(order, d[off + 16..off + 20]), Get32(order, d[off + 20..off + 24]));
  }

  /** And a payload with both coordinates so written, on the globe and with a fix, gives that location. */
  lemma LetteredIsLocated(d: bytes, latitude: real, longitude: real)
    requires HeaderOrder(d).Some? && Child(HeaderOrder(d).value, d, 0x8825).Some?
    requires var order := HeaderOrder(d).value;
             var ss := Child(order, d, 0x8825).value;
             && Stands(order, d, ss, 1, 78, 83, latitude) && -90.0 <= latitude <= 90.0
             && Stands(order, d, ss, 3, 69, 87, longitude) && -180.0 <= longitude <= 180.0
             && (Find(ss, 9, 2, 2).Some? ==> Find(ss, 9, 2, 2).value[0] != 86)
    ensures TiffLocation(d).latitude == Some(latitude) && TiffLocation(d).longitude == Some(longitude)
  {
    hide Coordinate, Stands, Altitude, Find, Get32;
    var order := HeaderOrder(d).value;
    var ss := Child(order, d, 0x8825).value;
    StandingIsRead(order, d, ss, 1, 78, 83, 90.0, latitude);
    StandingIsRead(order, d, ss, 3, 69, 87, 180.0, longitude);
  }

  /** An altitude by its entries: a rational at tag 6, and 0 above or 1 below the sea at tag 5. */
  ghost predicate Rises(order: Order, d: bytes, ss: seq<Slot>, value: real)
    requires forall s :: s in ss ==> |s.value| == 4
  {
    var ref, at := Find(ss, 5, 1, 1), Find(ss, 6, 5, 1);
    ref.Some? && at.Some? && ref.value[0] <= 1 &&
    var off := Get32(order, at.value);
    && 8 <= off && off + 8 <= |d|
    && var n, m := Get32(order, d[off..off + 4]), Get32(order, d[off + 4..off + 8]);
       m > 0 && value == if ref.value[0] == 1 then -(n as real / m as real) else n as real / m as real
  }

  lemma AltitudeRises(order: Order, d: bytes, ss: seq<Slot>)
    requires forall s :: s in ss ==> |s.value| == 4
    ensures var a := Altitude(order, d, Find(ss, 6, 5, 1), Find(ss, 5, 1, 1));
            if a.Some? then Rises(order, d, ss, a.value) else forall v: real :: !Rises(order, d, ss, v)
  {
    hide Get32, Find;
    var at := Find(ss, 6, 5, 1);
    if at.Some? && 8 <= Get32(order, at.value) && Get32(order, at.value) + 8 <= |d| {
      TwoHalves(d, Get32(order, at.value));
    }
  }

  /** A location has the altitude its entries give, and none if they give none. */
  lemma AltitudeIsRead(d: bytes)
    requires TiffLocation(d) != NOWHERE
    ensures HeaderOrder(d).Some? && Child(HeaderOrder(d).value, d, 0x8825).Some?
    ensures var order, a := HeaderOrder(d).value, TiffLocation(d).altitude;
            var ss := Child(order, d, 0x8825).value;
            if a.Some? then Rises(order, d, ss, a.value) else forall v: real :: !Rises(order, d, ss, v)
  {
    hide Coordinate, Rises, Altitude, Find, Get32;
    var order := HeaderOrder(d).value;
    AltitudeRises(order, d, Child(order, d, 0x8825).value);
  }

  // ---- headers and directories --------------------------------------------------------------------------------------

  /** A header is eight bytes that begin with II*, for little, or MM*, for big endian. */
  lemma HeadersAreExact(d: bytes)
    ensures HeaderOrder(d) == Some(Little) <==> |d| >= 8 && d[0] == 73 && d[1] == 73 && d[2] == 42 && d[3] == 0
    ensures HeaderOrder(d) == Some(Big) <==> |d| >= 8 && d[0] == 77 && d[1] == 77 && d[2] == 0 && d[3] == 42
  {
    if |d| >= 8 {
      var h := d[..4];
      assert h == [h[0], h[1], h[2], h[3]];
    }
  }

  /** The entries of a directory are read if and only if its count, all of them and the link to the next
      directory lie inside the payload, behind its header. */
  lemma DirectoryExactly(order: Order, d: bytes, offset: nat)
    ensures var dir := Directory(order, d, offset);
            if 8 <= offset && offset + 2 <= |d| && offset + 2 + 12 * Get16(order, d[offset..offset + 2]) + 4 <= |d|
            then dir == d[offset + 2..offset + 2 + 12 * Get16(order, d[offset..offset + 2])] else dir == []
  {
    hide Get16;
  }

  /** Each entry is twelve bytes: tag, type, count and slot. */
  lemma {:induction false} EntriesAreTwelveBytes(order: Order, dir: bytes, k: nat)
    requires 12 * (k + 1) <= |dir|
    ensures k < |Slots(order, dir)|
    ensures var s, e := Slots(order, dir)[k], 12 * k;
            && s.tag == Get16(order, dir[e..e + 2]) && s.kind == Get16(order, dir[e + 2..e + 4])
            && s.count == Get32(order, dir[e + 4..e + 8]) && s.value == dir[e + 8..e + 12]
    decreases k
  {
    hide Get16, Get32;
    if k > 0 {
      EntriesAreTwelveBytes(order, dir[12..], k - 1);
      var e := 12 * k;
      Behind(dir, e, e + 2);
      Behind(dir, e + 2, e + 4);
      Behind(dir, e + 4, e + 8);
      Behind(dir, e + 8, e + 12);
    } else {
      assert dir[0..2] == dir[..2];
    }
  }

  lemma Behind(dir: bytes, i: nat, j: nat)
    requires 12 <= i <= j <= |dir|
    ensures dir[12..][i - 12..j - 12] == dir[i..j]
  {
  }
}
