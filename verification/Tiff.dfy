/** The TIFF reader of internal/metadata/gps.go: two directories of one payload, entries of fixed
    type and count, and the GPS location they give. Rationals are exact here. */
module Tiff {
  import opened Prelude
  import opened Bytes

  const LITTLE_MAGIC: bytes := [0x49, 0x49, 0x2A, 0x00]
  const BIG_MAGIC: bytes := [0x4D, 0x4D, 0x00, 0x2A]

  const GPS_IFD: nat := 0x8825
  const EXIF_IFD: nat := 0x8769

  /** The byte order a header declares; None when it is not a TIFF header. */
  function HeaderOrder(d: bytes): Option<Order> {
    if |d| < 8 then None
    else if d[..4] == LITTLE_MAGIC then Some(Little)
    else if d[..4] == BIG_MAGIC then Some(Big)
    else None
  }

  /** One twelve-byte entry: tag, type, count and the slot holding a value or an offset. */
  datatype Slot = Slot(tag: nat, kind: nat, count: nat, value: bytes)

  function SlotAt(order: Order, e: bytes): (s: Slot)
    requires |e| >= 12
    ensures s.tag < U16 && s.kind < U16 && s.count < U32 && |s.value| == 4
  {
    Slot(Get16(order, e[..2]), Get16(order, e[2..4]), Get32(order, e[4..8]), e[8..12])
  }

  /** The entries of a directory's bytes, in order; a rest shorter than an entry is ignored. */
  function Slots(order: Order, dir: bytes): (ss: seq<Slot>)
    ensures forall s :: s in ss ==> |s.value| == 4
    ensures |ss| == |dir| / 12
  {
    if |dir| < 12 then [] else [SlotAt(order, dir)] + Slots(order, dir[12..])
  }

  /** directory: the entries behind a 16-bit count, empty unless all of it and the next-directory
      link lie inside the payload, past its header. */
  function Directory(order: Order, d: bytes, offset: nat): bytes {
    if offset < 8 || offset + 2 > |d| then []
    else
      var size := Get16(order, d[offset..offset + 2]) * 12;
      if offset + 2 + size + 4 > |d| then [] else d[offset + 2..offset + 2 + size]
  }

  /** The slot of the first entry with this tag, type and count. */
  function Find(ss: seq<Slot>, tag: nat, kind: nat, count: nat): (v: Option<bytes>)
    requires forall s :: s in ss ==> |s.value| == 4
    ensures v.Some? ==> |v.value| == 4
  {
    if ss == [] then None
    else if ss[0].tag == tag && ss[0].kind == kind && ss[0].count == count then Some(ss[0].value)
    else Find(ss[1..], tag, kind, count)
  }

  method Entry(order: Order, dir: bytes, tag: nat, kind: nat, count: nat) returns (v: Option<bytes>)
    ensures v == Find(Slots(order, dir), tag, kind, count)
  {
    hide Get16, Get32;
    var rest := dir;
    while |rest| >= 12
      invariant Find(Slots(order, dir), tag, kind, count) == Find(Slots(order, rest), tag, kind, count)
    {
      var e := rest[..12];
      assert e[..2] == rest[..2] && e[2..4] == rest[2..4] && e[4..8] == rest[4..8] && e[8..12] == rest[8..12];
      assert Slots(order, rest)[1..] == Slots(order, rest[12..]);
      if Get16(order, e[..2]) == tag && Get16(order, e[2..4]) == kind && Get32(order, e[4..8]) == count {
        return Some(e[8..12]);
      }
      rest := rest[12..];
    }
    return None;
  }

  /** An unsigned rational: two 32-bit numbers, inside the payload past its header. */
  function Rational(order: Order, d: bytes, offset: nat): Option<real> {
    if offset < 8 || offset + 8 > |d| then None else Quotient(order, d[offset..offset + 8])
  }

  function Quotient(order: Order, v: bytes): Option<real>
    requires |v| >= 8
  {
    if Get32(order, v[4..8]) == 0 then None
    else Some(Get32(order, v[..4]) as real / Get32(order, v[4..8]) as real)
  }

  datatype Location = Location(latitude: Option<real>, longitude: Option<real>, altitude: Option<real>)

  const NOWHERE := Location(None, None, None)

  /** coordinate: a reference letter and three rationals, as signed degrees. */
  function Coordinate(order: Order, d: bytes, ss: seq<Slot>, refTag: nat, positive: byte, negative: byte, limit: real): Option<real>
    requires forall s :: s in ss ==> |s.value| == 4
  {
    var ref, value := Find(ss, refTag, 2, 2), Find(ss, refTag + 1, 5, 3);
    if ref.None? || value.None? || (ref.value[0] != positive && ref.value[0] != negative) then None
    else
      var offset := Get32(order, value.value);
      Degrees(Rational(order, d, offset), Rational(order, d, offset + 8), Rational(order, d, offset + 16),
              ref.value[0] == negative, limit)
  }

  function Degrees(degrees: Option<real>, minutes: Option<real>, seconds: Option<real>, south: bool, limit: real): Option<real> {
    if degrees.None? || minutes.None? || seconds.None? || minutes.value >= 60.0 || seconds.value >= 60.0 then None
    else
      var c := degrees.value + minutes.value / 60.0 + seconds.value / 3600.0;
      if c > limit then None else Some(if south then -c else c)
  }

  const VOID: byte := 86 // 'V': the receiver had no valid fix
  const NORTH: byte := 78
  const SOUTH: byte := 83
  const EAST: byte := 69
  const WEST: byte := 87

  function LocationIn(order: Order, d: bytes, ss: seq<Slot>): Location
    requires forall s :: s in ss ==> |s.value| == 4
  {
    var status := Find(ss, 9, 2, 2);
    if status.Some? && status.value[0] == VOID then NOWHERE
    else
      var lat, lon := Coordinate(order, d, ss, 1, NORTH, SOUTH, 90.0), Coordinate(order, d, ss, 3, EAST, WEST, 180.0);
      if lat.None? || lon.None? then NOWHERE
      else Location(lat, lon, Altitude(order, d, Find(ss, 6, 5, 1), Find(ss, 5, 1, 1)))
  }

  function Altitude(order: Order, d: bytes, altitude: Option<bytes>, ref: Option<bytes>): Option<real>
    requires altitude.Some? ==> |altitude.value| == 4
    requires ref.Some? ==> |ref.value| == 4
  {
    if altitude.None? || ref.None? || ref.value[0] > 1 then None
    else Signed(Rational(order, d, Get32(order, altitude.value)), ref.value[0] == 1)
  }

  function Signed(v: Option<real>, below: bool): Option<real> {
    if v.Some? && below then Some(-v.value) else v
  }

  /** The entries of the first directory, and of the one a pointer in it leads to. */
  function Root(order: Order, d: bytes): (ss: seq<Slot>)
    requires |d| >= 8
    ensures forall s :: s in ss ==> |s.value| == 4
  {
    Slots(order, Directory(order, d, Get32(order, d[4..8])))
  }

  function Child(order: Order, d: bytes, pointerTag: nat): (ss: Option<seq<Slot>>)
    requires |d| >= 8
    ensures ss.Some? ==> forall s :: s in ss.value ==> |s.value| == 4
  {
    var pointer := Find(Root(order, d), pointerTag, 4, 1);
    if pointer.None? then None else Some(Slots(order, Directory(order, d, Get32(order, pointer.value))))
  }

  /** tiffLocation. */
  function TiffLocation(d: bytes): Location {
    if HeaderOrder(d).None? then NOWHERE
    else
      var gps := Child(HeaderOrder(d).value, d, GPS_IFD);
      if gps.None? then NOWHERE else LocationIn(HeaderOrder(d).value, d, gps.value)
  }

  /** A location is complete or absent: no latitude without a longitude, no altitude alone. */
  lemma LocationIsWhole(d: bytes)
    ensures var l := TiffLocation(d);
            && (l.latitude.Some? <==> l.longitude.Some?)
            && (l.altitude.Some? ==> l.latitude.Some?)
            && (l.latitude.Some? ==> -90.0 <= l.latitude.value <= 90.0)
            && (l.longitude.Some? ==> -180.0 <= l.longitude.value <= 180.0)
  {
    if HeaderOrder(d).Some? && Child(HeaderOrder(d).value, d, GPS_IFD).Some? {
      var order, ss := HeaderOrder(d).value, Child(HeaderOrder(d).value, d, GPS_IFD).value;
      CoordinateInRange(order, d, ss, 1, NORTH, SOUTH, 90.0);
      CoordinateInRange(order, d, ss, 3, EAST, WEST, 180.0);
    }
  }

  lemma CoordinateInRange(order: Order, d: bytes, ss: seq<Slot>, refTag: nat, positive: byte, negative: byte, limit: real)
    requires forall s :: s in ss ==> |s.value| == 4
    ensures var c := Coordinate(order, d, ss, refTag, positive, negative, limit);
            c.Some? ==> -limit <= c.value <= limit
  {
    var value := Find(ss, refTag + 1, 5, 3);
    if value.Some? {
      var offset := Get32(order, value.value);
      RationalNonNegative(order, d, offset);
      RationalNonNegative(order, d, offset + 8);
      RationalNonNegative(order, d, offset + 16);
    }
  }

  lemma RationalNonNegative(order: Order, d: bytes, offset: nat)
    ensures Rational(order, d, offset).Some? ==> Rational(order, d, offset).value >= 0.0
  {
    hide Get32;
    if Rational(order, d, offset).Some? {
      var v := d[offset..offset + 8];
      QuotientNonNegative(Get32(order, v[..4]), Get32(order, v[4..8]));
    }
  }

  lemma QuotientNonNegative(n: nat, m: nat)
    requires m > 0
    ensures n as real / m as real >= 0.0
  {
  }
}
