/** What a rebuilt payload means: the same selection again, only allow-listed tags, no location in a
    camera block, and in a location block the location of the original. */
module TiffMeaning {
  import opened Prelude
  import opened Bytes
  import opened Tiff
  import opened TiffFilter
  import opened TiffRoundTrip

  // ---- what a selection can be -------------------------------------------------------------------------------

  ghost predicate Distinct(fs: seq<Field>, seen: set<nat>) {
    fs == [] || (fs[0].tag !in seen && Distinct(fs[1..], seen + {fs[0].tag}))
  }

  predicate AllAllowed(fs: seq<Field>, g: Group) { forall f :: f in fs ==> Allowed(g, f.tag) }

  predicate NoneAllowed(fs: seq<Field>, g: Group) { forall f :: f in fs ==> !Allowed(g, f.tag) }

  predicate Bounded(ss: seq<Slot>) {
    forall s :: s in ss ==> s.tag < U16 && s.kind < U16 && s.count < U32 && |s.value| == 4
  }

  lemma {:induction false} SlotsAreBounded(order: Order, dir: bytes)
    ensures Bounded(Slots(order, dir))
    decreases |dir|
  {
    hide SlotAt;
    if |dir| >= 12 {
      SlotsAreBounded(order, dir[12..]);
    }
  }

  lemma {:induction false} SelectionIsSound(order: Order, d: bytes, ss: seq<Slot>, g: Group, seen: set<nat>)
    requires Bounded(ss)
    ensures var fs := Select(order, d, ss, g, seen);
            AllSound(fs) && Distinct(fs, seen) && AllAllowed(fs, g)
    decreases |ss|
  {
    hide EntryData, Allowed, TypeSize;
    if ss != [] {
      var s := ss[0];
      assert s in ss && Bounded(ss[1..]);
      SelectionIsSound(order, d, ss[1..], g, seen);
      SelectionIsSound(order, d, ss[1..], g, seen + {s.tag});
    }
  }

  // ---- selecting from a directory that was laid out -------------------------------------------------------------

  lemma ReproducedRest(order: Order, out: bytes, ss: seq<Slot>, fs: seq<Field>)
    requires Reproduced(order, out, ss, fs) && fs != []
    ensures ss != [] && Placed(out, order, fs[0], ss[0]) && Reproduced(order, out, ss[1..], fs[1..])
    ensures forall s :: s in ss ==> |s.value| == 4
  {
    hide EntryData;
    assert Placed(out, order, fs[0], ss[0]);
    forall k: nat | k < |fs| - 1
      ensures Placed(out, order, fs[1..][k], ss[1..][k])
    {
      assert Placed(out, order, fs[k + 1], ss[k + 1]);
    }
    forall s | s in ss
      ensures |s.value| == 4
    {
      var k: nat :| k < |ss| && ss[k] == s;
      assert Placed(out, order, fs[k], ss[k]);
    }
  }

  lemma {:induction false} SlotValuesAreFour(order: Order, out: bytes, ss: seq<Slot>, fs: seq<Field>)
    requires Reproduced(order, out, ss, fs)
    ensures forall s :: s in ss ==> |s.value| == 4
  {
    if fs != [] {
      ReproducedRest(order, out, ss, fs);
    }
  }

  /** Fields that were selected once are selected again; what is not allowed is passed over. */
  lemma {:induction false} SelectsAgain(order: Order, out: bytes, ss: seq<Slot>, fs: seq<Field>, others: seq<Field>,
                                        g: Group, seen: set<nat>)
    requires Reproduced(order, out, ss, fs + others) && (forall s :: s in ss ==> |s.value| == 4)
    requires Distinct(fs, seen) && AllAllowed(fs, g) && NoneAllowed(others, g)
    ensures Select(order, out, ss, g, seen) == fs
    decreases |fs| + |others|
  {
    hide EntryData, Allowed;
    if fs != [] {
      ReproducedRest(order, out, ss, fs + others);
      assert (fs + others)[1..] == fs[1..] + others && (fs + others)[0] == fs[0];
      assert fs[0] in fs && AllAllowed(fs[1..], g);
      SelectsAgain(order, out, ss[1..], fs[1..], others, g, seen + {fs[0].tag});
    } else if others != [] {
      ReproducedRest(order, out, ss, fs + others);
      assert fs + others == others && fs + others[1..] == others[1..];
      assert others[0] in others && NoneAllowed(others[1..], g);
      SelectsAgain(order, out, ss[1..], fs, others[1..], g, seen);
    }
  }

  /** Looking up a tag finds a field with it, or nothing when no field has it. */
  lemma {:induction false} FindsPointer(order: Order, out: bytes, ss: seq<Slot>, fs: seq<Field>, p: Field)
    requires Reproduced(order, out, ss, fs + [p]) && (forall s :: s in ss ==> |s.value| == 4)
    requires p.kind == 4 && p.count == 1 && |p.value| == 4 && forall f :: f in fs ==> f.tag != p.tag
    ensures Find(ss, p.tag, 4, 1) == Some(p.value)
    decreases |fs|
  {
    ReproducedRest(order, out, ss, fs + [p]);
    if fs != [] {
      assert (fs + [p])[1..] == fs[1..] + [p];
      FindsPointer(order, out, ss[1..], fs[1..], p);
    } else {
      assert ss[0].value[..4] == ss[0].value;
    }
  }

  lemma {:induction false} FindsNothing(order: Order, out: bytes, ss: seq<Slot>, fs: seq<Field>, tag: nat)
    requires Reproduced(order, out, ss, fs) && (forall s :: s in ss ==> |s.value| == 4)
    requires forall f :: f in fs ==> f.tag != tag
    ensures Find(ss, tag, 4, 1) == None
    decreases |fs|
  {
    hide EntryData;
    if fs != [] {
      ReproducedRest(order, out, ss, fs);
      FindsNothing(order, out, ss[1..], fs[1..], tag);
    }
  }

  // ---- a rebuilt block -------------------------------------------------------------------------------------------

  /** Two directories the writer can lay out. */
  ghost predicate Written(order: Order, first: seq<Field>, child: seq<Field>, camera: bool) {
    && AllSound(first) && AllAllowed(first, CameraGroup) && AllSound(child)
    && |Layout(order, WithPointer(order, first, child, PointerTag(camera)), child)| <= LIMIT
  }

  /** What filteredTIFF hands to the writer. */
  ghost predicate Parts(order: Order, first: seq<Field>, child: seq<Field>, camera: bool) {
    && Written(order, first, child, camera)
    && Distinct(first, {}) && (!camera ==> first == [])
    && Distinct(child, {}) && AllAllowed(child, if camera then ExposureGroup else GpsGroup)
  }

  lemma PartsOf(order: Order, d: bytes, camera: bool)
    requires |d| >= 8
    ensures var first, child := FirstOf(order, d, camera), ChildOf(order, d, camera);
            && AllSound(first) && Distinct(first, {}) && AllAllowed(first, CameraGroup) && (!camera ==> first == [])
            && AllSound(child) && Distinct(child, {}) && AllAllowed(child, if camera then ExposureGroup else GpsGroup)
  {
    hide Select, Find, Slots, Directory, Get32, Allowed, Sound;
    SlotsAreBounded(order, Directory(order, d, Get32(order, d[4..8])));
    SelectionIsSound(order, d, Root(order, d), CameraGroup, {});
    var pointer := Find(Root(order, d), PointerTag(camera), 4, 1);
    if pointer.Some? {
      SlotsAreBounded(order, Directory(order, d, Get32(order, pointer.value)));
      SelectionIsSound(order, d, Child(order, d, PointerTag(camera)).value,
                       if camera then ExposureGroup else GpsGroup, {});
    }
  }

  lemma RootIsSound(order: Order, first: seq<Field>, child: seq<Field>, camera: bool)
    requires AllSound(first)
    ensures AllSound(WithPointer(order, first, child, PointerTag(camera)))
  {
    hide Put32;
    var root := WithPointer(order, first, child, PointerTag(camera));
    forall f | f in root
      ensures Sound(f)
    {
      if f !in first {
        assert f == root[|first|];
      }
    }
  }

  /** The pointers are on no allow-list, so a root directory has at most the one that was added. */
  lemma PointersAreOutside(fs: seq<Field>)
    requires AllAllowed(fs, CameraGroup)
    ensures forall f :: f in fs ==> f.tag != GPS_IFD && f.tag != EXIF_IFD
  {
  }

  /** The child directory of a block, read back through its pointer. */
  lemma ChildFound(order: Order, first: seq<Field>, child: seq<Field>, camera: bool)
    requires Written(order, first, child, camera) && child != []
    ensures var root := WithPointer(order, first, child, PointerTag(camera));
            var out := Layout(order, root, child);
            && HeaderOrder(out) == Some(order)
            && Child(order, out, PointerTag(camera)) == Some(Slots(order, Directory(order, out, ChildAt(root))))
            && Reproduced(order, out, Child(order, out, PointerTag(camera)).value, child)
  {
    hide Layout, Allowed, Sound, Put32, Get32, Distinct, Slots, Directory, Reproduced, Root, Find;
    var root := WithPointer(order, first, child, PointerTag(camera));
    RootIsSound(order, first, child, camera);
    LayoutReadsBack(order, root, child);
    LengthsFit(order, root, child);
    var out := Layout(order, root, child);
    PointersAreOutside(first);
    SlotValuesAreFour(order, out, Root(order, out), root);
    var p := Field(PointerTag(camera), 4, 1, Put32(order, ChildAt(root)));
    assert root == first + [p];
    FindsPointer(order, out, Root(order, out), first, p);
    Get32Put32(order, ChildAt(root));
  }

  lemma LengthsFit(order: Order, root: seq<Field>, child: seq<Field>)
    requires |Layout(order, root, child)| <= LIMIT
    ensures ChildAt(root) < U32 && |Layout(order, root, child)| >= 8
  {
    hide Layout, DirBytes, Holds, Data, OutsideAll;
    LayoutParts(order, root, child);
  }

  /** Without a child there is no pointer, and a pointer of the other kind is never there. */
  lemma NoPointer(order: Order, first: seq<Field>, child: seq<Field>, camera: bool, tag: nat)
    requires Written(order, first, child, camera) && tag in {GPS_IFD, EXIF_IFD}
    requires child == [] || tag != PointerTag(camera)
    ensures var out := Layout(order, WithPointer(order, first, child, PointerTag(camera)), child);
            |out| >= 8 && HeaderOrder(out) == Some(order) && Child(order, out, tag) == None
  {
    hide Layout, Allowed, Sound, Put32, Distinct, Reproduced, Root, Find;
    var root := WithPointer(order, first, child, PointerTag(camera));
    RootIsSound(order, first, child, camera);
    LayoutReadsBack(order, root, child);
    LengthsFit(order, root, child);
    var out := Layout(order, root, child);
    PointersAreOutside(first);
    SlotValuesAreFour(order, out, Root(order, out), root);
    FindsNothing(order, out, Root(order, out), root, tag);
  }

  /** The fields the writer was given are what the rebuild selects from its output. */
  lemma BlockSelectsAgain(order: Order, first: seq<Field>, child: seq<Field>, camera: bool)
    requires Parts(order, first, child, camera)
    ensures var out := Layout(order, WithPointer(order, first, child, PointerTag(camera)), child);
            && HeaderOrder(out) == Some(order) && |out| >= 8
            && FirstOf(order, out, camera) == first && ChildOf(order, out, camera) == child
  {
    hide Layout, Allowed, Sound, Put32, Get32, Distinct, Slots, Directory, Reproduced, Root, Select, Find;
    var root := WithPointer(order, first, child, PointerTag(camera));
    var out := Layout(order, root, child);
    RootIsSound(order, first, child, camera);
    LayoutReadsBack(order, root, child);
    LengthsFit(order, root, child);
    SlotValuesAreFour(order, out, Root(order, out), root);
    if camera {
      var others := root[|first|..];
      assert root == first + others;
      PointerNotAllowed(others);
      SelectsAgain(order, out, Root(order, out), first, others, CameraGroup, {});
    }
    if child == [] {
      NoPointer(order, first, child, camera, PointerTag(camera));
    } else {
      ChildFound(order, first, child, camera);
      var ss := Child(order, out, PointerTag(camera)).value;
      assert child + [] == child;
      SelectsAgain(order, out, ss, child, [], if camera then ExposureGroup else GpsGroup, {});
    }
  }

  lemma PointerNotAllowed(others: seq<Field>)
    requires forall f :: f in others ==> f.tag == EXIF_IFD
    ensures NoneAllowed(others, CameraGroup)
  {
  }

  lemma RebuiltFrom(d: bytes, camera: bool)
    requires Filtered(d, camera).Some?
    ensures HeaderOrder(d).Some?
    ensures var order := HeaderOrder(d).value;
            var first, child := FirstOf(order, d, camera), ChildOf(order, d, camera);
            && Parts(order, first, child, camera)
            && Filtered(d, camera) == Some(Layout(order, WithPointer(order, first, child, PointerTag(camera)), child))
            && (first != [] || child != [])
  {
    hide Layout, FirstOf, ChildOf, AllSound, Distinct, AllAllowed;
    PartsOf(HeaderOrder(d).value, d, camera);
  }

  /** The rebuild keeps exactly its selection: read back, its block has the byte order, the first
      directory and the child directory that were selected from the original. */
  lemma RebuildKeepsTheSelection(d: bytes, camera: bool)
    requires Filtered(d, camera).Some?
    ensures var out := Filtered(d, camera).value;
            && HeaderOrder(out) == HeaderOrder(d) && HeaderOrder(d).Some?
            && FirstOf(HeaderOrder(d).value, out, camera) == FirstOf(HeaderOrder(d).value, d, camera)
            && ChildOf(HeaderOrder(d).value, out, camera) == ChildOf(HeaderOrder(d).value, d, camera)
  {
    hide Layout, FirstOf, ChildOf, Filtered;
    RebuiltFrom(d, camera);
    var order := HeaderOrder(d).value;
    BlockSelectsAgain(order, FirstOf(order, d, camera), ChildOf(order, d, camera), camera);
  }

  /** Rebuilding a rebuilt block gives it back byte for byte. */
  lemma RebuildTwice(d: bytes, camera: bool)
    requires Filtered(d, camera).Some?
    ensures Filtered(Filtered(d, camera).value, camera) == Filtered(d, camera)
  {
    hide Layout, FirstOf, ChildOf, HeaderOrder;
    RebuildKeepsTheSelection(d, camera);
  }

  /** The tags of a directory. */
  ghost predicate OnlyTags(ss: seq<Slot>, g: Group, pointerTag: nat) {
    forall s :: s in ss ==> Allowed(g, s.tag) || s.tag == pointerTag
  }

  lemma ReproducedTags(order: Order, out: bytes, ss: seq<Slot>, fs: seq<Field>, g: Group, pointerTag: nat)
    requires Reproduced(order, out, ss, fs) && forall f :: f in fs ==> Allowed(g, f.tag) || f.tag == pointerTag
    ensures OnlyTags(ss, g, pointerTag)
  {
    hide Allowed, EntryData;
    forall s | s in ss
      ensures Allowed(g, s.tag) || s.tag == pointerTag
    {
      var k: nat :| k < |ss| && ss[k] == s;
      assert Placed(out, order, fs[k], ss[k]) && fs[k] in fs;
    }
  }

  /** Nothing but allow-listed tags and the one pointer reaches the block: no owner, no serial
      number, no maker note, no thumbnail, and only the directory that was asked for. */
  lemma OnlyAllowedTags(d: bytes, camera: bool)
    requires Filtered(d, camera).Some?
    ensures var out := Filtered(d, camera).value;
            && HeaderOrder(out) == HeaderOrder(d) && HeaderOrder(d).Some?
            && OnlyTags(Root(HeaderOrder(d).value, out), CameraGroup, PointerTag(camera))
            && Child(HeaderOrder(d).value, out, PointerTag(!camera)) == None
            && var child := Child(HeaderOrder(d).value, out, PointerTag(camera));
               child.Some? ==> forall s :: s in child.value ==> Allowed(if camera then ExposureGroup else GpsGroup, s.tag)
  {
    hide Layout, FirstOf, ChildOf, Filtered, Allowed, Root, Child, Reproduced, Sound, Distinct;
    RebuiltFrom(d, camera);
    var order := HeaderOrder(d).value;
    var first, child := FirstOf(order, d, camera), ChildOf(order, d, camera);
    var root := WithPointer(order, first, child, PointerTag(camera));
    RootIsSound(order, first, child, camera);
    LayoutReadsBack(order, root, child);
    ReproducedTags(order, Layout(order, root, child), Root(order, Layout(order, root, child)), root, CameraGroup, PointerTag(camera));
    NoPointer(order, first, child, camera, PointerTag(!camera));
    if child == [] {
      NoPointer(order, first, child, camera, PointerTag(camera));
    } else {
      ChildFound(order, first, child, camera);
      var g := if camera then ExposureGroup else GpsGroup;
      ChildTags(order, Layout(order, root, child), Child(order, Layout(order, root, child), PointerTag(camera)).value, child, g);
    }
  }

  lemma ChildTags(order: Order, out: bytes, ss: seq<Slot>, fs: seq<Field>, g: Group)
    requires Reproduced(order, out, ss, fs) && AllAllowed(fs, g)
    ensures forall s :: s in ss ==> Allowed(g, s.tag)
  {
    hide Allowed, EntryData;
    forall s | s in ss
      ensures Allowed(g, s.tag)
    {
      var k: nat :| k < |ss| && ss[k] == s;
      assert Placed(out, order, fs[k], ss[k]) && fs[k] in fs;
    }
  }

  /** The first directory of a location block has no entry but the pointer. */
  lemma LocationRoot(d: bytes)
    requires Filtered(d, false).Some?
    ensures var out := Filtered(d, false).value;
            HeaderOrder(out).Some? && forall s :: s in Root(HeaderOrder(out).value, out) ==> s.tag == GPS_IFD
  {
    hide Layout, ChildOf, Filtered, Allowed, Root, Child, Reproduced, Sound, Distinct, Put32;
    RebuiltFrom(d, false);
    var order := HeaderOrder(d).value;
    var child := ChildOf(order, d, false);
    var root := WithPointer(order, [], child, GPS_IFD);
    RootIsSound(order, [], child, false);
    LayoutReadsBack(order, root, child);
    RebuildKeepsTheSelection(d, false);
    OnePointer(order, Layout(order, root, child), Root(order, Layout(order, root, child)), root);
  }

  lemma OnePointer(order: Order, out: bytes, ss: seq<Slot>, fs: seq<Field>)
    requires Reproduced(order, out, ss, fs) && forall f :: f in fs ==> f.tag == GPS_IFD
    ensures forall s :: s in ss ==> s.tag == GPS_IFD
  {
    hide EntryData;
    forall s | s in ss
      ensures s.tag == GPS_IFD
    {
      var k: nat :| k < |ss| && ss[k] == s;
      assert Placed(out, order, fs[k], ss[k]) && fs[k] in fs;
    }
  }

  /** A camera block never gives a location. */
  lemma CameraBlockHasNoLocation(d: bytes)
    requires Filtered(d, true).Some?
    ensures TiffLocation(Filtered(d, true).value) == NOWHERE
  {
    hide Layout, FirstOf, ChildOf, Filtered, Child;
    RebuiltFrom(d, true);
    var order := HeaderOrder(d).value;
    NoPointer(order, FirstOf(order, d, true), ChildOf(order, d, true), true, GPS_IFD);
  }

  // ---- the location, by values -----------------------------------------------------------------------------------

  /** The bytes of the first entry with this tag, type and count. */
  function Value(order: Order, d: bytes, ss: seq<Slot>, tag: nat, kind: nat, count: nat): (v: Option<bytes>)
    requires forall s :: s in ss ==> |s.value| == 4
    ensures v.Some? ==> |v.value| == TypeSize(kind) * count
  {
    var slot := Find(ss, tag, kind, count);
    if slot.None? then None else EntryData(order, d, Slot(tag, kind, count, slot.value))
  }

  function FieldValue(fs: seq<Field>, tag: nat, kind: nat, count: nat): Option<bytes> {
    if fs == [] then None
    else if fs[0].tag == tag && fs[0].kind == kind && fs[0].count == count then Some(fs[0].value)
    else FieldValue(fs[1..], tag, kind, count)
  }

  /** What the seven values mean, wherever they are stored. */
  function Meaning(order: Order, status: Option<bytes>, latRef: Option<bytes>, lat: Option<bytes>, lonRef: Option<bytes>,
                   lon: Option<bytes>, alt: Option<bytes>, altRef: Option<bytes>): Location
    requires (status.Some? ==> |status.value| == 2) && (latRef.Some? ==> |latRef.value| == 2)
    requires (lonRef.Some? ==> |lonRef.value| == 2) && (altRef.Some? ==> |altRef.value| == 1)
    requires (lat.Some? ==> |lat.value| == 24) && (lon.Some? ==> |lon.value| == 24) && (alt.Some? ==> |alt.value| == 8)
  {
    if status.Some? && status.value[0] == VOID then NOWHERE
    else
      var y, x := Axis(order, latRef, lat, NORTH, SOUTH, 90.0), Axis(order, lonRef, lon, EAST, WEST, 180.0);
      if y.None? || x.None? then NOWHERE else Location(y, x, Height(order, alt, altRef))
  }

  function Axis(order: Order, ref: Option<bytes>, value: Option<bytes>, positive: byte, negative: byte, limit: real): Option<real>
    requires (ref.Some? ==> |ref.value| == 2) && (value.Some? ==> |value.value| == 24)
  {
    if ref.None? || value.None? || (ref.value[0] != positive && ref.value[0] != negative) then None
    else Degrees(Quotient(order, value.value[..8]), Quotient(order, value.value[8..16]),
                 Quotient(order, value.value[16..24]), ref.value[0] == negative, limit)
  }

  function Height(order: Order, alt: Option<bytes>, ref: Option<bytes>): Option<real>
    requires (alt.Some? ==> |alt.value| == 8) && (ref.Some? ==> |ref.value| == 1)
  {
    if alt.None? || ref.None? || ref.value[0] > 1 then None else Signed(Quotient(order, alt.value), ref.value[0] == 1)
  }

  lemma AxisIsCoordinate(order: Order, d: bytes, ss: seq<Slot>, tag: nat, positive: byte, negative: byte, limit: real)
    requires forall s :: s in ss ==> |s.value| == 4
    ensures Coordinate(order, d, ss, tag, positive, negative, limit)
            == Axis(order, Value(order, d, ss, tag, 2, 2), Value(order, d, ss, tag + 1, 5, 3), positive, negative, limit)
  {
    hide Get32, Quotient, Find;
    var value := Find(ss, tag + 1, 5, 3);
    if value.Some? {
      ThreeRationals(order, d, Get32(order, value.value));
    }
  }

  /** Three rationals are readable exactly when the twenty-four bytes are. */
  lemma ThreeRationals(order: Order, d: bytes, at: nat)
    ensures if at < 8 || at + 24 > |d| then
              Rational(order, d, at).None? || Rational(order, d, at + 16).None?
            else
              var v := d[at..at + 24];
              Rational(order, d, at) == Quotient(order, v[..8]) && Rational(order, d, at + 8) == Quotient(order, v[8..16])
              && Rational(order, d, at + 16) == Quotient(order, v[16..24])
  {
    hide Get32, Quotient;
    if 8 <= at && at + 24 <= |d| {
      SliceWithin(d, at, 24, 0, 8);
      SliceWithin(d, at, 24, 8, 16);
      SliceWithin(d, at, 24, 16, 24);
      assert d[at..at + 24][..8] == d[at..at + 24][0..8];
    }
  }

  lemma HeightIsAltitude(order: Order, d: bytes, ss: seq<Slot>)
    requires forall s :: s in ss ==> |s.value| == 4
    ensures Altitude(order, d, Find(ss, 6, 5, 1), Find(ss, 5, 1, 1))
            == Height(order, Value(order, d, ss, 6, 5, 1), Value(order, d, ss, 5, 1, 1))
  {
    hide Get32, Quotient, Find;
  }

  function MeaningOf(order: Order, d: bytes, ss: seq<Slot>): Location
    requires forall s :: s in ss ==> |s.value| == 4
  {
    Meaning(order, Value(order, d, ss, 9, 2, 2), Value(order, d, ss, 1, 2, 2), Value(order, d, ss, 2, 5, 3),
            Value(order, d, ss, 3, 2, 2), Value(order, d, ss, 4, 5, 3), Value(order, d, ss, 6, 5, 1), Value(order, d, ss, 5, 1, 1))
  }

  lemma LocationIsMeaning(order: Order, d: bytes, ss: seq<Slot>)
    requires forall s :: s in ss ==> |s.value| == 4
    ensures LocationIn(order, d, ss) == MeaningOf(order, d, ss)
  {
    hide Get32, Quotient, Find, Coordinate, Axis, Altitude, Height;
    AxisIsCoordinate(order, d, ss, 1, NORTH, SOUTH, 90.0);
    AxisIsCoordinate(order, d, ss, 3, EAST, WEST, 180.0);
    HeightIsAltitude(order, d, ss);
  }

  // ---- the location a rebuild has --------------------------------------------------------------------------------

  /** The first entry of a tag whose value can be read: the one that is copied. */
  function FirstReadable(order: Order, d: bytes, ss: seq<Slot>, tag: nat): Option<Slot>
    requires forall s :: s in ss ==> |s.value| == 4
  {
    if ss == [] then None
    else if ss[0].tag == tag && EntryData(order, d, ss[0]).Some? then Some(ss[0])
    else FirstReadable(order, d, ss[1..], tag)
  }

  /** That entry has the type and the count the reader of locations asks for. */
  predicate Typed(order: Order, d: bytes, ss: seq<Slot>, tag: nat, kind: nat, count: nat)
    requires forall s :: s in ss ==> |s.value| == 4
  {
    var s := FirstReadable(order, d, ss, tag);
    s.Some? && s.value.kind == kind && s.value.count == count
  }

  lemma {:induction false} FirstReadableIs(order: Order, d: bytes, ss: seq<Slot>, tag: nat)
    requires forall s :: s in ss ==> |s.value| == 4
    ensures var s := FirstReadable(order, d, ss, tag);
            s.Some? ==> s.value in ss && s.value.tag == tag && EntryData(order, d, s.value).Some?
  {
    hide EntryData;
    if ss != [] {
      FirstReadableIs(order, d, ss[1..], tag);
    }
  }

  /** What a reader of the rebuild gets for a tag: the first readable entry, when it is of its type. */
  function Chosen(order: Order, d: bytes, ss: seq<Slot>, tag: nat, kind: nat, count: nat): (v: Option<bytes>)
    requires forall s :: s in ss ==> |s.value| == 4
    ensures v.Some? <==> Typed(order, d, ss, tag, kind, count)
    ensures v.Some? ==> |v.value| == TypeSize(kind) * count
  {
    FirstReadableIs(order, d, ss, tag);
    if Typed(order, d, ss, tag, kind, count) then EntryData(order, d, FirstReadable(order, d, ss, tag).value) else None
  }

  lemma {:induction false} SeenIsPassedOver(order: Order, d: bytes, ss: seq<Slot>, g: Group, seen: set<nat>,
                                            tag: nat, kind: nat, count: nat)
    requires (forall s :: s in ss ==> |s.value| == 4) && tag in seen
    ensures FieldValue(Select(order, d, ss, g, seen), tag, kind, count) == None
    decreases |ss|
  {
    hide EntryData, Allowed;
    if ss != [] {
      SeenIsPassedOver(order, d, ss[1..], g, seen, tag, kind, count);
      SeenIsPassedOver(order, d, ss[1..], g, seen + {ss[0].tag}, tag, kind, count);
    }
  }

  /** The selection holds the first readable entry of each allowed tag and no other entry of it. */
  lemma {:induction false} ChosenIsSelected(order: Order, d: bytes, ss: seq<Slot>, g: Group, seen: set<nat>,
                                            tag: nat, kind: nat, count: nat)
    requires (forall s :: s in ss ==> |s.value| == 4) && Allowed(g, tag) && tag !in seen
    ensures FieldValue(Select(order, d, ss, g, seen), tag, kind, count) == Chosen(order, d, ss, tag, kind, count)
    decreases |ss|
  {
    hide EntryData, Allowed;
    if ss != [] {
      var s := ss[0];
      if s.tag == tag && EntryData(order, d, s).Some? {
        SeenIsPassedOver(order, d, ss[1..], g, seen + {tag}, tag, kind, count);
      } else {
        ChosenIsSelected(order, d, ss[1..], g, seen, tag, kind, count);
        if s.tag != tag {
          ChosenIsSelected(order, d, ss[1..], g, seen + {s.tag}, tag, kind, count);
        }
      }
    }
  }

  /** Where the reader finds a value, the copied entry has that value or is of another type. */
  lemma {:induction false} ChosenOrLost(order: Order, d: bytes, ss: seq<Slot>, tag: nat, kind: nat, count: nat)
    requires forall s :: s in ss ==> |s.value| == 4
    requires Value(order, d, ss, tag, kind, count).Some?
    ensures FirstReadable(order, d, ss, tag).Some?
    ensures Chosen(order, d, ss, tag, kind, count) ==
            if Typed(order, d, ss, tag, kind, count) then Value(order, d, ss, tag, kind, count) else None
  {
    hide EntryData;
    if ss != [] {
      var s := ss[0];
      if s.tag == tag && s.kind == kind && s.count == count {
        assert s == Slot(tag, kind, count, s.value);
      } else if s.tag != tag || EntryData(order, d, s).None? {
        ChosenOrLost(order, d, ss[1..], tag, kind, count);
      }
    }
  }

  /** A value that fits its slot is always readable, so none is copied where the reader finds none. */
  lemma {:induction false} ShortValues(order: Order, d: bytes, ss: seq<Slot>, tag: nat, kind: nat, count: nat)
    requires (forall s :: s in ss ==> |s.value| == 4) && 0 < TypeSize(kind) * count <= 4
    ensures Typed(order, d, ss, tag, kind, count) ==> Value(order, d, ss, tag, kind, count).Some?
    ensures Value(order, d, ss, tag, kind, count).Some? ==> FirstReadable(order, d, ss, tag).Some?
  {
    FirstReadableIs(order, d, ss, tag);
    FindsSome(order, ss, tag, kind, count);
    if Value(order, d, ss, tag, kind, count).Some? {
      ChosenOrLost(order, d, ss, tag, kind, count);
    }
  }

  lemma {:induction false} FindsSome(order: Order, ss: seq<Slot>, tag: nat, kind: nat, count: nat)
    requires forall s :: s in ss ==> |s.value| == 4
    ensures Find(ss, tag, kind, count).Some? <==> exists s :: s in ss && s.tag == tag && s.kind == kind && s.count == count
  {
    if ss != [] {
      FindsSome(order, ss[1..], tag, kind, count);
    }
  }

  lemma {:induction false} ValueIsReproduced(order: Order, out: bytes, ss: seq<Slot>, fs: seq<Field>, tag: nat, kind: nat, count: nat)
    requires Reproduced(order, out, ss, fs) && (forall s :: s in ss ==> |s.value| == 4)
    ensures Value(order, out, ss, tag, kind, count) == FieldValue(fs, tag, kind, count)
    decreases |fs|
  {
    hide EntryData;
    if fs != [] {
      ReproducedRest(order, out, ss, fs);
      var s := ss[0];
      assert s.Slot? && s == Slot(s.tag, s.kind, s.count, s.value);
      ValueIsReproduced(order, out, ss[1..], fs[1..], tag, kind, count);
    }
  }

  /** The meaning of the seven fields a location is read from. */
  ghost predicate SameMeaning(order: Order, d: bytes, ss: seq<Slot>, fs: seq<Field>)
    requires forall s :: s in ss ==> |s.value| == 4
  {
    && Value(order, d, ss, 9, 2, 2) == FieldValue(fs, 9, 2, 2)
    && Value(order, d, ss, 1, 2, 2) == FieldValue(fs, 1, 2, 2)
    && Value(order, d, ss, 2, 5, 3) == FieldValue(fs, 2, 5, 3)
    && Value(order, d, ss, 3, 2, 2) == FieldValue(fs, 3, 2, 2)
    && Value(order, d, ss, 4, 5, 3) == FieldValue(fs, 4, 5, 3)
    && Value(order, d, ss, 6, 5, 1) == FieldValue(fs, 6, 5, 1)
    && Value(order, d, ss, 5, 1, 1) == FieldValue(fs, 5, 1, 1)
  }

  lemma ReproductionMeansTheSame(order: Order, out: bytes, ss: seq<Slot>, fs: seq<Field>)
    requires Reproduced(order, out, ss, fs) && (forall s :: s in ss ==> |s.value| == 4)
    ensures SameMeaning(order, out, ss, fs)
  {
    hide Value, FieldValue, Reproduced;
    ValueIsReproduced(order, out, ss, fs, 9, 2, 2);
    ValueIsReproduced(order, out, ss, fs, 1, 2, 2);
    ValueIsReproduced(order, out, ss, fs, 2, 5, 3);
    ValueIsReproduced(order, out, ss, fs, 3, 2, 2);
    ValueIsReproduced(order, out, ss, fs, 4, 5, 3);
    ValueIsReproduced(order, out, ss, fs, 6, 5, 1);
    ValueIsReproduced(order, out, ss, fs, 5, 1, 1);
  }

  /** The entries of the GPS directory of a payload, none when it has no such directory. */
  function GpsSlots(d: bytes): (ss: seq<Slot>)
    ensures forall s :: s in ss ==> |s.value| == 4
  {
    if HeaderOrder(d).None? then []
    else
      var ss := Child(HeaderOrder(d).value, d, GPS_IFD);
      if ss.None? then [] else ss.value
  }

  lemma LocationOfSlots(d: bytes)
    requires HeaderOrder(d).Some?
    ensures TiffLocation(d) == MeaningOf(HeaderOrder(d).value, d, GpsSlots(d))
  {
    hide Child, LocationIn, MeaningOf;
    LocationIsMeaning(HeaderOrder(d).value, d, GpsSlots(d));
    if Child(HeaderOrder(d).value, d, GPS_IFD).None? {
      NothingMeansNowhere(HeaderOrder(d).value, d);
    }
  }

  lemma NothingMeansNowhere(order: Order, d: bytes)
    ensures MeaningOf(order, d, []) == NOWHERE
  {
  }

  /** The meaning of the first readable entries of the seven tags. */
  function MeaningOfFirst(order: Order, d: bytes, ss: seq<Slot>): Location
    requires forall s :: s in ss ==> |s.value| == 4
  {
    Meaning(order, Chosen(order, d, ss, 9, 2, 2), Chosen(order, d, ss, 1, 2, 2), Chosen(order, d, ss, 2, 5, 3),
            Chosen(order, d, ss, 3, 2, 2), Chosen(order, d, ss, 4, 5, 3), Chosen(order, d, ss, 6, 5, 1), Chosen(order, d, ss, 5, 1, 1))
  }

  ghost predicate FieldsAreChosen(order: Order, d: bytes, ss: seq<Slot>, fs: seq<Field>)
    requires forall s :: s in ss ==> |s.value| == 4
  {
    && Chosen(order, d, ss, 9, 2, 2) == FieldValue(fs, 9, 2, 2)
    && Chosen(order, d, ss, 1, 2, 2) == FieldValue(fs, 1, 2, 2)
    && Chosen(order, d, ss, 2, 5, 3) == FieldValue(fs, 2, 5, 3)
    && Chosen(order, d, ss, 3, 2, 2) == FieldValue(fs, 3, 2, 2)
    && Chosen(order, d, ss, 4, 5, 3) == FieldValue(fs, 4, 5, 3)
    && Chosen(order, d, ss, 6, 5, 1) == FieldValue(fs, 6, 5, 1)
    && Chosen(order, d, ss, 5, 1, 1) == FieldValue(fs, 5, 1, 1)
  }

  lemma SelectionIsChosen(order: Order, d: bytes, ss: seq<Slot>)
    requires forall s :: s in ss ==> |s.value| == 4
    ensures FieldsAreChosen(order, d, ss, Select(order, d, ss, GpsGroup, {}))
  {
    hide Chosen, FieldValue, Select;
    ChosenIsSelected(order, d, ss, GpsGroup, {}, 9, 2, 2);
    ChosenIsSelected(order, d, ss, GpsGroup, {}, 1, 2, 2);
    ChosenIsSelected(order, d, ss, GpsGroup, {}, 2, 5, 3);
    ChosenIsSelected(order, d, ss, GpsGroup, {}, 3, 2, 2);
    ChosenIsSelected(order, d, ss, GpsGroup, {}, 4, 5, 3);
    ChosenIsSelected(order, d, ss, GpsGroup, {}, 6, 5, 1);
    ChosenIsSelected(order, d, ss, GpsGroup, {}, 5, 1, 1);
  }

  /** What a location-only rebuild reads as, for every payload: the meaning of the first readable entry
      of each of the seven tags, as far as it is of the reader's type. */
  lemma RebuildReadsFirstEntries(d: bytes)
    requires Filtered(d, false).Some?
    ensures HeaderOrder(d).Some?
    ensures TiffLocation(Filtered(d, false).value) == MeaningOfFirst(HeaderOrder(d).value, d, GpsSlots(d))
  {
    hide Layout, Filtered, Value, Chosen, Select, Slots, Directory, Find, Meaning, Reproduced, FieldValue, TiffLocation, Distinct, Sound;
    RebuiltFrom(d, false);
    var order, out := HeaderOrder(d).value, Filtered(d, false).value;
    var child := ChildOf(order, d, false);
    ChildFound(order, [], child, false);
    SelectionIsChosen(order, d, GpsSlots(d));
    ReproductionMeansTheSame(order, out, GpsSlots(out), child);
    LocationOfSlots(out);
  }

  /** The first readable entries of the four tags of a position have the reader's types. */
  predicate PositionTyped(order: Order, d: bytes, ss: seq<Slot>)
    requires forall s :: s in ss ==> |s.value| == 4
  {
    Typed(order, d, ss, 1, 2, 2) && Typed(order, d, ss, 2, 5, 3) && Typed(order, d, ss, 3, 2, 2) && Typed(order, d, ss, 4, 5, 3)
  }

  predicate AltitudeTyped(order: Order, d: bytes, ss: seq<Slot>)
    requires forall s :: s in ss ==> |s.value| == 4
  {
    Typed(order, d, ss, 6, 5, 1) && Typed(order, d, ss, 5, 1, 1)
  }

  /** What a located directory must hold. */
  lemma LocatedHasValues(order: Order, d: bytes, ss: seq<Slot>)
    requires (forall s :: s in ss ==> |s.value| == 4) && MeaningOf(order, d, ss) != NOWHERE
    ensures Value(order, d, ss, 1, 2, 2).Some? && Value(order, d, ss, 2, 5, 3).Some?
    ensures Value(order, d, ss, 3, 2, 2).Some? && Value(order, d, ss, 4, 5, 3).Some?
    ensures MeaningOf(order, d, ss).altitude.Some? ==> Value(order, d, ss, 6, 5, 1).Some? && Value(order, d, ss, 5, 1, 1).Some?
  {
    hide Value, Quotient;
  }

  /** A located directory, read by its first readable entries. */
  lemma LocatedByFirst(order: Order, d: bytes, ss: seq<Slot>)
    requires (forall s :: s in ss ==> |s.value| == 4) && MeaningOf(order, d, ss) != NOWHERE
    ensures var l, r := MeaningOf(order, d, ss), MeaningOfFirst(order, d, ss);
            && (if PositionTyped(order, d, ss) then r.latitude == l.latitude && r.longitude == l.longitude else r == NOWHERE)
            && (l.altitude.Some? && PositionTyped(order, d, ss) ==>
                  r.altitude == if AltitudeTyped(order, d, ss) then l.altitude else None)
  {
    hide Value, Chosen, Typed, Quotient, Degrees;
    LocatedHasValues(order, d, ss);
    ShortValues(order, d, ss, 9, 2, 2);
    if Value(order, d, ss, 9, 2, 2).Some? {
      ChosenOrLost(order, d, ss, 9, 2, 2);
    }
    ChosenOrLost(order, d, ss, 1, 2, 2);
    ChosenOrLost(order, d, ss, 2, 5, 3);
    ChosenOrLost(order, d, ss, 3, 2, 2);
    ChosenOrLost(order, d, ss, 4, 5, 3);
    if MeaningOf(order, d, ss).altitude.Some? {
      ChosenOrLost(order, d, ss, 6, 5, 1);
      ChosenOrLost(order, d, ss, 5, 1, 1);
    }
  }

  /** For every payload with a location, the rebuild has its latitude and longitude if and only if the
      first readable entry of each of their four tags is of the reader's type, and none at all
      otherwise; and all of the location, when it has an altitude, if and only if that holds for the
      two tags of the altitude as well. */
  lemma LocationIsKeptExactly(d: bytes)
    requires Filtered(d, false).Some? && TiffLocation(d) != NOWHERE
    ensures HeaderOrder(d).Some?
    ensures var order, ss, l, r := HeaderOrder(d).value, GpsSlots(d), TiffLocation(d), TiffLocation(Filtered(d, false).value);
            && ((r.latitude == l.latitude && r.longitude == l.longitude) <==> PositionTyped(order, d, ss))
            && (!PositionTyped(order, d, ss) ==> r == NOWHERE)
            && (l.altitude.Some? ==> (r == l <==> PositionTyped(order, d, ss) && AltitudeTyped(order, d, ss)))
  {
    hide Filtered, TiffLocation, MeaningOf, MeaningOfFirst, Typed, GpsSlots, PositionTyped, AltitudeTyped;
    RebuildReadsFirstEntries(d);
    LocationOfSlots(d);
    LocatedByFirst(HeaderOrder(d).value, d, GpsSlots(d));
    LocatedIsWhole(d);
  }

  lemma LocatedIsWhole(d: bytes)
    requires TiffLocation(d) != NOWHERE
    ensures TiffLocation(d).latitude.Some? && TiffLocation(d).longitude.Some?
  {
    hide Coordinate, Altitude;
  }

  // ---- without repeated tags -------------------------------------------------------------------------------------

  /** How many entries of a directory have a tag. */
  function Times(ss: seq<Slot>, tag: nat): nat {
    if ss == [] then 0 else (if ss[0].tag == tag then 1 else 0) + Times(ss[1..], tag)
  }

  lemma {:induction false} TagAbsent(order: Order, d: bytes, ss: seq<Slot>, tag: nat, kind: nat, count: nat)
    requires (forall s :: s in ss ==> |s.value| == 4) && Times(ss, tag) == 0
    ensures Find(ss, tag, kind, count) == None && FirstReadable(order, d, ss, tag) == None
  {
    hide EntryData;
    if ss != [] {
      TagAbsent(order, d, ss[1..], tag, kind, count);
    }
  }

  /** A tag that is not repeated has one meaning. */
  lemma {:induction false} ValueIsChosen(order: Order, d: bytes, ss: seq<Slot>, tag: nat, kind: nat, count: nat)
    requires (forall s :: s in ss ==> |s.value| == 4) && Times(ss, tag) <= 1
    ensures Chosen(order, d, ss, tag, kind, count) == Value(order, d, ss, tag, kind, count)
  {
    hide EntryData;
    if ss != [] {
      if ss[0].tag == tag {
        TagAbsent(order, d, ss[1..], tag, kind, count);
        assert Slot(ss[0].tag, ss[0].kind, ss[0].count, ss[0].value) == ss[0];
      } else {
        ValueIsChosen(order, d, ss[1..], tag, kind, count);
      }
    }
  }

  const LOCATION_TAGS: seq<nat> := [9, 1, 2, 3, 4, 6, 5]

  ghost predicate NoneRepeated(ss: seq<Slot>) { forall t: nat :: t in LOCATION_TAGS ==> Times(ss, t) <= 1 }

  /** The location-only rebuild keeps the meaning of a payload whose GPS directory repeats none of the
      tags a location is read from: what it reads as is what the original reads as. */
  lemma LocationIsKept(d: bytes)
    requires Filtered(d, false).Some? && NoneRepeated(GpsSlots(d))
    ensures TiffLocation(Filtered(d, false).value) == TiffLocation(d)
  {
    hide Filtered, TiffLocation, Meaning, Value, Chosen, Times, GpsSlots;
    RebuildReadsFirstEntries(d);
    LocationOfSlots(d);
    var order, ss := HeaderOrder(d).value, GpsSlots(d);
    ValueIsChosen(order, d, ss, LOCATION_TAGS[0], 2, 2);
    ValueIsChosen(order, d, ss, LOCATION_TAGS[1], 2, 2);
    ValueIsChosen(order, d, ss, LOCATION_TAGS[2], 5, 3);
    ValueIsChosen(order, d, ss, LOCATION_TAGS[3], 2, 2);
    ValueIsChosen(order, d, ss, LOCATION_TAGS[4], 5, 3);
    ValueIsChosen(order, d, ss, LOCATION_TAGS[5], 5, 1);
    ValueIsChosen(order, d, ss, LOCATION_TAGS[6], 1, 1);
  }

  lemma {:induction false} ReadableIsSelected(order: Order, d: bytes, ss: seq<Slot>, g: Group, tag: nat)
    requires (forall s :: s in ss ==> |s.value| == 4) && Allowed(g, tag) && FirstReadable(order, d, ss, tag).Some?
    ensures Select(order, d, ss, g, {}) != []
  {
    hide EntryData, Allowed;
    if ss != [] && !(ss[0].tag == tag && EntryData(order, d, ss[0]).Some?) {
      ReadableIsSelected(order, d, ss[1..], g, tag);
    }
  }

  /** A payload with a location is only ever left without a block because the block would be too long. */
  lemma LocationIsNotOverlooked(d: bytes)
    requires TiffLocation(d) != NOWHERE && Filtered(d, false).None?
    ensures HeaderOrder(d).Some?
    ensures var order := HeaderOrder(d).value;
            var child := ChildOf(order, d, false);
            child != [] && |Layout(order, WithPointer(order, [], child, GPS_IFD), child)| > LIMIT
  {
    hide Layout, Value, Select, Slots, Directory, Find, Meaning, FirstReadable;
    var order, ss := HeaderOrder(d).value, GpsSlots(d);
    LocationOfSlots(d);
    LocatedHasValues(order, d, ss);
    ChosenOrLost(order, d, ss, 1, 2, 2);
    ReadableIsSelected(order, d, ss, GpsGroup, 1);
  }

  // ---- repeated tags -----------------------------------------------------------------------------------------

  const ZERO_DEGREES: bytes := [0, 0, 0, 0, 0, 0, 0, 1, 0, 0, 0, 0, 0, 0, 0, 1, 0, 0, 0, 0, 0, 0, 0, 1]

  /** A position at 0 N, 0 E whose latitude reference follows an entry of the same tag and another type. */
  const DOUBLED: seq<Field> := [
    Field(1, 1, 2, [0, 0]), Field(1, 2, 2, [NORTH, 0]), Field(2, 5, 3, ZERO_DEGREES),
    Field(3, 2, 2, [EAST, 0]), Field(4, 5, 3, ZERO_DEGREES)]

  /** The same position without a valid fix, whose status follows an entry of the same tag and another
      type. */
  const VOIDED: seq<Field> := [
    Field(9, 1, 2, [0, 0]), Field(9, 2, 2, [VOID, 0]), Field(1, 2, 2, [NORTH, 0]), Field(2, 5, 3, ZERO_DEGREES),
    Field(3, 2, 2, [EAST, 0]), Field(4, 5, 3, ZERO_DEGREES)]

  /** A payload with these fields in its GPS directory and nothing else. */
  function TiffOf(fs: seq<Field>): bytes { Layout(Big, WithPointer(Big, [], fs, GPS_IFD), fs) }

  lemma {:induction false} SelectionIsSmaller(order: Order, d: bytes, ss: seq<Slot>, g: Group, seen: set<nat>)
    requires Bounded(ss)
    ensures |Select(order, d, ss, g, seen)| <= |ss| && OutsideAll(Select(order, d, ss, g, seen)) <= 4096 * |ss|
    decreases |ss|
  {
    hide EntryData, Allowed, OutsideAll;
    NoData();
    if ss != [] {
      assert Bounded(ss[1..]);
      var s, rest := ss[0], Select(order, d, ss[1..], g, seen + {ss[0].tag});
      SelectionIsSmaller(order, d, ss[1..], g, seen);
      SelectionIsSmaller(order, d, ss[1..], g, seen + {s.tag});
      if EntryData(order, d, s).Some? {
        OutsideFirst(Field(s.tag, s.kind, s.count, EntryData(order, d, s).value), rest);
      }
    }
  }

  lemma OutsideFirst(f: Field, fs: seq<Field>)
    requires |f.value| <= 4096
    ensures OutsideAll([f] + fs) <= 4096 + OutsideAll(fs)
  {
    assert ([f] + fs)[1..] == fs;
  }

  lemma {:induction false} SoundIsBounded(fs: seq<Field>)
    requires AllSound(fs)
    ensures OutsideAll(fs) <= 4096 * |fs|
  {
    hide TypeSize;
    if fs != [] {
      assert Sound(fs[0]) && AllSound(fs[1..]);
      SoundIsBounded(fs[1..]);
    }
  }

  lemma SmallIsWritten(order: Order, fs: seq<Field>)
    requires AllSound(fs) && 0 < |fs| <= 15
    ensures Written(order, [], fs, false)
  {
    hide Layout, OutsideAll, Put32, Sound;
    SoundIsBounded(fs);
    LocationBlockSize(order, fs);
  }

  predicate Matches(f: Field, tag: nat, kind: nat, count: nat) { f.tag == tag && f.kind == kind && f.count == count }

  lemma {:induction false} FieldAt(fs: seq<Field>, k: nat, tag: nat, kind: nat, count: nat)
    requires k < |fs| && Matches(fs[k], tag, kind, count)
    requires forall j: nat :: j < k ==> !Matches(fs[j], tag, kind, count)
    ensures FieldValue(fs, tag, kind, count) == Some(fs[k].value)
  {
    if k != 0 {
      assert !Matches(fs[0], tag, kind, count);
      FieldAt(fs[1..], k - 1, tag, kind, count);
    }
  }

  lemma {:induction false} FieldNowhere(fs: seq<Field>, tag: nat, kind: nat, count: nat)
    requires forall f :: f in fs ==> !Matches(f, tag, kind, count)
    ensures FieldValue(fs, tag, kind, count) == None
  {
    if fs != [] {
      assert !Matches(fs[0], tag, kind, count);
      FieldNowhere(fs[1..], tag, kind, count);
    }
  }

  lemma ZeroAxis(v: bytes)
    requires v == ZERO_DEGREES
    ensures Quotient(Big, v[..8]) == Quotient(Big, v[8..16]) == Quotient(Big, v[16..24]) == Some(0.0)
  {
    ZeroQuotient(v[..8]);
    ZeroQuotient(v[8..16]);
    ZeroQuotient(v[16..24]);
  }

  lemma ZeroQuotient(v: bytes)
    requires v == [0, 0, 0, 0, 0, 0, 0, 1]
    ensures Quotient(Big, v) == Some(0.0)
  {
    assert v[..4] == [0, 0, 0, 0] && v[4..8] == [0, 0, 0, 1];
    assert Get32(Big, v[..4]) == 0 && Get32(Big, v[4..8]) == 1;
  }

  /** The value of the first field of a tag, when it is of this type. */
  function FirstField(fs: seq<Field>, tag: nat, kind: nat, count: nat): Option<bytes> {
    if fs == [] then None
    else if fs[0].tag == tag then (if fs[0].kind == kind && fs[0].count == count then Some(fs[0].value) else None)
    else FirstField(fs[1..], tag, kind, count)
  }

  lemma {:induction false} ChosenIsReproduced(order: Order, d: bytes, ss: seq<Slot>, fs: seq<Field>, tag: nat, kind: nat, count: nat)
    requires Reproduced(order, d, ss, fs) && (forall s :: s in ss ==> |s.value| == 4)
    ensures Chosen(order, d, ss, tag, kind, count) == FirstField(fs, tag, kind, count)
    ensures FirstReadable(order, d, ss, tag).Some? <==> exists f :: f in fs && f.tag == tag
    decreases |fs|
  {
    hide EntryData;
    if fs != [] {
      ReproducedRest(order, d, ss, fs);
      ChosenIsReproduced(order, d, ss[1..], fs[1..], tag, kind, count);
    }
  }

  lemma {:induction false} FirstFieldAt(fs: seq<Field>, k: nat, tag: nat, kind: nat, count: nat)
    requires k < |fs| && fs[k].tag == tag && forall j: nat :: j < k ==> fs[j].tag != tag
    ensures FirstField(fs, tag, kind, count) == if fs[k].kind == kind && fs[k].count == count then Some(fs[k].value) else None
  {
    if k != 0 {
      assert fs[0].tag != tag;
      FirstFieldAt(fs[1..], k - 1, tag, kind, count);
    }
  }

  lemma {:induction false} FirstFieldNowhere(fs: seq<Field>, tag: nat, kind: nat, count: nat)
    requires forall f :: f in fs ==> f.tag != tag
    ensures FirstField(fs, tag, kind, count) == None
  {
    if fs != [] {
      assert fs[0].tag != tag;
      FirstFieldNowhere(fs[1..], tag, kind, count);
    }
  }

  lemma LocationBlockSize(order: Order, child: seq<Field>)
    requires child != []
    ensures var root := WithPointer(order, [], child, GPS_IFD);
            |Layout(order, root, child)| == 32 + 12 * |child| + OutsideAll(child)
  {
    hide Put32, DirBytes, Data, Head;
    HeadIsEight(order);
    var root := WithPointer(order, [], child, GPS_IFD);
    assert root[1..] == [];
    assert OutsideAll(root) == 0;
  }

  /** Such a payload of few fields reads back field by field, and has a rebuild. */
  lemma SmallIsRebuilt(fs: seq<Field>)
    requires AllSound(fs) && 0 < |fs| <= 15 && fs[0].tag <= 0x001f
    ensures HeaderOrder(TiffOf(fs)) == Some(Big) && Filtered(TiffOf(fs), false).Some?
    ensures Reproduced(Big, TiffOf(fs), GpsSlots(TiffOf(fs)), fs)
    ensures TiffLocation(TiffOf(fs)) == MeaningOf(Big, TiffOf(fs), GpsSlots(TiffOf(fs)))
    ensures TiffLocation(Filtered(TiffOf(fs), false).value) == MeaningOfFirst(Big, TiffOf(fs), GpsSlots(TiffOf(fs)))
  {
    hide Layout, OutsideAll, EntryData, Get32, TiffLocation, MeaningOf, MeaningOfFirst, Select, Directory, Slots;
    hide Root, Find, Sound, Reproduced;
    var d := TiffOf(fs);
    SmallIsWritten(Big, fs);
    ChildFound(Big, [], fs, false);
    var ss := GpsSlots(d);
    LocationOfSlots(d);
    ReproducedSize(Big, d, ss, fs);
    ChosenIsReproduced(Big, d, ss, fs, fs[0].tag, fs[0].kind, fs[0].count);
    ReadableIsSelected(Big, d, ss, GpsGroup, fs[0].tag);
    GpsSlotsBounded(d);
    SelectionIsSmaller(Big, d, ss, GpsGroup, {});
    LocationBlockSize(Big, ChildOf(Big, d, false));
    RebuildReadsFirstEntries(d);
  }

  lemma ReproducedSize(order: Order, d: bytes, ss: seq<Slot>, fs: seq<Field>)
    requires Reproduced(order, d, ss, fs)
    ensures |ss| == |fs|
  {
  }

  lemma GpsSlotsBounded(d: bytes)
    ensures Bounded(GpsSlots(d))
  {
    hide Slots, Find, Directory, Get32;
    if HeaderOrder(d).Some? && Child(HeaderOrder(d).value, d, GPS_IFD).Some? {
      var order := HeaderOrder(d).value;
      SlotsAreBounded(order, Directory(order, d, Get32(order, Find(Root(order, d), GPS_IFD, 4, 1).value)));
    }
  }

  lemma DoubledMeaning(d: bytes, ss: seq<Slot>)
    requires (forall s :: s in ss ==> |s.value| == 4) && SameMeaning(Big, d, ss, DOUBLED)
    ensures MeaningOf(Big, d, ss) == Location(Some(0.0), Some(0.0), None)
  {
    hide Value, EntryData, FieldValue, Quotient;
    FieldNowhere(DOUBLED, 9, 2, 2);
    FieldNowhere(DOUBLED, 6, 5, 1);
    FieldNowhere(DOUBLED, 5, 1, 1);
    FieldAt(DOUBLED, 1, 1, 2, 2);
    FieldAt(DOUBLED, 2, 2, 5, 3);
    FieldAt(DOUBLED, 3, 3, 2, 2);
    FieldAt(DOUBLED, 4, 4, 5, 3);
    ZeroAxis(ZERO_DEGREES);
  }

  lemma NoReferenceNoLocation(order: Order, d: bytes, ss: seq<Slot>)
    requires (forall s :: s in ss ==> |s.value| == 4) && Chosen(order, d, ss, 1, 2, 2) == None
    ensures MeaningOfFirst(order, d, ss) == NOWHERE
  {
    hide Chosen, Quotient;
  }

  lemma AllAreSound()
    ensures AllSound(DOUBLED) && AllSound(VOIDED)
  {
  }

  /** A payload that has a location, of which the rebuild has none: the reference is hidden behind an
      entry of its tag that nobody reads. */
  lemma RepeatedTagLosesTheLocation()
    ensures var d := TiffOf(DOUBLED);
            && TiffLocation(d) == Location(Some(0.0), Some(0.0), None)
            && Filtered(d, false).Some? && TiffLocation(Filtered(d, false).value) == NOWHERE
  {
    hide FirstField, Reproduced, TiffOf, GpsSlots, TiffLocation, Filtered, MeaningOf, MeaningOfFirst, SameMeaning, Sound, Chosen;
    var d := TiffOf(DOUBLED);
    AllAreSound();
    SmallIsRebuilt(DOUBLED);
    var ss := GpsSlots(d);
    ReproductionMeansTheSame(Big, d, ss, DOUBLED);
    DoubledMeaning(d, ss);
    ChosenIsReproduced(Big, d, ss, DOUBLED, 1, 2, 2);
    FirstFieldAt(DOUBLED, 0, 1, 2, 2);
    NoReferenceNoLocation(Big, d, ss);
  }

  lemma VoidMeaning(d: bytes, ss: seq<Slot>)
    requires (forall s :: s in ss ==> |s.value| == 4) && SameMeaning(Big, d, ss, VOIDED)
    ensures MeaningOf(Big, d, ss) == NOWHERE
  {
    hide Value, EntryData, FieldValue, Quotient;
    FieldAt(VOIDED, 1, 9, 2, 2);
  }

  lemma VoidMeaningOfFirst(d: bytes, ss: seq<Slot>)
    requires (forall s :: s in ss ==> |s.value| == 4) && Reproduced(Big, d, ss, VOIDED)
    ensures MeaningOfFirst(Big, d, ss) == Location(Some(0.0), Some(0.0), None)
  {
    hide Chosen, Quotient, Reproduced;
    VoidedIsChosen(d, ss);
    ZeroAxis(ZERO_DEGREES);
  }

  /** And a payload that reads as no location, because its fix is void, of which the rebuild reads as
      one. */
  lemma RepeatedStatusGivesALocation()
    ensures var d := TiffOf(VOIDED);
            && TiffLocation(d) == NOWHERE
            && Filtered(d, false).Some? && TiffLocation(Filtered(d, false).value) == Location(Some(0.0), Some(0.0), None)
  {
    hide FirstField, Reproduced, TiffOf, GpsSlots, TiffLocation, Filtered, MeaningOf, MeaningOfFirst, SameMeaning, Sound, Chosen;
    var d := TiffOf(VOIDED);
    AllAreSound();
    SmallIsRebuilt(VOIDED);
    ReproductionMeansTheSame(Big, d, GpsSlots(d), VOIDED);
    VoidMeaning(d, GpsSlots(d));
    VoidMeaningOfFirst(d, GpsSlots(d));
  }

  lemma VoidedIsChosen(d: bytes, ss: seq<Slot>)
    requires (forall s :: s in ss ==> |s.value| == 4) && Reproduced(Big, d, ss, VOIDED)
    ensures Chosen(Big, d, ss, 9, 2, 2) == None
    ensures Chosen(Big, d, ss, 1, 2, 2) == Some([NORTH, 0]) && Chosen(Big, d, ss, 2, 5, 3) == Some(ZERO_DEGREES)
    ensures Chosen(Big, d, ss, 3, 2, 2) == Some([EAST, 0]) && Chosen(Big, d, ss, 4, 5, 3) == Some(ZERO_DEGREES)
    ensures Chosen(Big, d, ss, 6, 5, 1) == None && Chosen(Big, d, ss, 5, 1, 1) == None
  {
    hide EntryData, FirstField, Chosen, FirstReadable, Reproduced;
    ChosenIsReproduced(Big, d, ss, VOIDED, 9, 2, 2);
    FirstFieldAt(VOIDED, 0, 9, 2, 2);
    ChosenIsReproduced(Big, d, ss, VOIDED, 1, 2, 2);
    FirstFieldAt(VOIDED, 2, 1, 2, 2);
    ChosenIsReproduced(Big, d, ss, VOIDED, 2, 5, 3);
    FirstFieldAt(VOIDED, 3, 2, 5, 3);
    ChosenIsReproduced(Big, d, ss, VOIDED, 3, 2, 2);
    FirstFieldAt(VOIDED, 4, 3, 2, 2);
    ChosenIsReproduced(Big, d, ss, VOIDED, 4, 5, 3);
    FirstFieldAt(VOIDED, 5, 4, 5, 3);
    ChosenIsReproduced(Big, d, ss, VOIDED, 6, 5, 1);
    FirstFieldNowhere(VOIDED, 6, 5, 1);
    ChosenIsReproduced(Big, d, ss, VOIDED, 5, 1, 1);
    FirstFieldNowhere(VOIDED, 5, 1, 1);
  }
}
