/** filteredTIFF of internal/metadata/filter_tiff.go: one category of Exif is copied out of a TIFF
    payload and laid out afresh in two directories with their values behind them. */
module TiffFilter {
  import opened Prelude
  import opened Bytes
  import opened Tiff

  const CAMERA_TAGS: set<nat> := {0x010f, 0x0110, 0x0112, 0x0131, 0x0132, 0x013b, 0x8298}

  const EXPOSURE_TAGS: set<nat> := SPEED_TAGS + TIME_TAGS + CAPTURE_TAGS + SENSOR_TAGS + LENS_TAGS

  const SPEED_TAGS: set<nat> := {0x829a, 0x829d, 0x8822, 0x8827, 0x8830, 0x8831, 0x8832, 0x8833}
  const TIME_TAGS: set<nat> := {0x9000, 0x9003, 0x9004, 0x9010, 0x9011, 0x9012, 0x9101, 0x9102}
  const CAPTURE_TAGS: set<nat> := {
    0x9201, 0x9202, 0x9203, 0x9204, 0x9205, 0x9207, 0x9208, 0x9209, 0x920a, 0x9290, 0x9291, 0x9292}
  const SENSOR_TAGS: set<nat> := {0xa000, 0xa001, 0xa002, 0xa003, 0xa20e, 0xa20f, 0xa210, 0xa217, 0xa300, 0xa301}
  const LENS_TAGS: set<nat> := {
    0xa401, 0xa402, 0xa403, 0xa404, 0xa405, 0xa406, 0xa407, 0xa408, 0xa409, 0xa40a, 0xa432, 0xa433, 0xa434}

  /** The allow-lists, one for each directory that may be copied. */
  datatype Group = CameraGroup | ExposureGroup | GpsGroup

  predicate Allowed(g: Group, tag: nat) {
    match g
    case CameraGroup => tag in CAMERA_TAGS
    case ExposureGroup => tag in EXPOSURE_TAGS
    case GpsGroup => tag <= 0x001f
  }

  datatype Field = Field(tag: nat, kind: nat, count: nat, value: bytes)

  /** The size of one value of the TIFF primitive types 1 to 12; zero for every other type. */
  function TypeSize(kind: nat): nat {
    if kind == 0 || kind > 12 then 0 else [1, 1, 2, 4, 8, 1, 1, 2, 4, 8, 4, 8][kind - 1]
  }

  /** entryData: the value of an entry, in its slot or where the slot points. */
  function EntryData(order: Order, d: bytes, s: Slot): (v: Option<bytes>)
    requires |s.value| == 4
    ensures v.Some? ==> |v.value| == TypeSize(s.kind) * s.count && 0 < |v.value| <= 4096
  {
    var size := TypeSize(s.kind) * s.count;
    if size == 0 || size > 4096 then None
    else if size <= 4 then Some(s.value[..size])
    else
      var at := Get32(order, s.value);
      if at < 8 || at + size > |d| then None else Some(d[at..at + size])
  }

  /** selectedEntries: the first readable entry of each allowed tag, in order. */
  function Select(order: Order, d: bytes, ss: seq<Slot>, g: Group, seen: set<nat>): seq<Field>
    requires forall s :: s in ss ==> |s.value| == 4
  {
    if ss == [] then []
    else
      var s := ss[0];
      if !Allowed(g, s.tag) || s.tag in seen || EntryData(order, d, s).None? then Select(order, d, ss[1..], g, seen)
      else
        [Field(s.tag, s.kind, s.count, EntryData(order, d, s).value)] + Select(order, d, ss[1..], g, seen + {s.tag})
  }

  method SelectedEntries(order: Order, d: bytes, dir: bytes, g: Group) returns (fields: seq<Field>)
    ensures fields == Select(order, d, Slots(order, dir), g, {})
  {
    hide EntryData, Allowed, Get16, Get32;
    fields := [];
    var rest := dir;
    var seen: set<nat> := {};
    ghost var all := Select(order, d, Slots(order, dir), g, {});
    while |rest| >= 12
      invariant all == fields + Select(order, d, Slots(order, rest), g, seen)
    {
      var s := SlotAt(order, rest);
      assert Slots(order, rest)[1..] == Slots(order, rest[12..]);
      rest := rest[12..];
      if !Allowed(g, s.tag) || s.tag in seen {
        continue;
      }
      var value := EntryData(order, d, s);
      if value.None? {
        continue;
      }
      ghost var before, tail := fields, Select(order, d, Slots(order, rest), g, seen + {s.tag});
      fields := fields + [Field(s.tag, s.kind, s.count, value.value)];
      seen := seen + {s.tag};
      assert before + ([Field(s.tag, s.kind, s.count, value.value)] + tail) == fields + tail;
    }
    assert fields + [] == fields;
  }

  // ---- the layout ------------------------------------------------------------------------------------------

  /** The bytes a value takes outside its slot: none up to four, and else an even number. */
  function Outside(f: Field): nat { if |f.value| <= 4 then 0 else |f.value| + |f.value| % 2 }

  function OutsideAll(fs: seq<Field>): nat { if fs == [] then 0 else Outside(fs[0]) + OutsideAll(fs[1..]) }

  /** The slot of a field whose outside value, if it has one, lies at `at`. */
  function SlotOf(order: Order, f: Field, at: nat): (v: bytes)
    ensures |v| == 4
  {
    if |f.value| <= 4 then f.value + Zeros(4 - |f.value|) else Put32(order, at)
  }

  function Row(order: Order, f: Field, at: nat): (row: bytes)
    ensures |row| == 12
  {
    Put16(order, f.tag) + Put16(order, f.kind) + Put32(order, f.count) + SlotOf(order, f, at)
  }

  function Rows(order: Order, fs: seq<Field>, at: nat): (rows: bytes)
    ensures |rows| == 12 * |fs|
  {
    if fs == [] then [] else Row(order, fs[0], at) + Rows(order, fs[1..], at + Outside(fs[0]))
  }

  /** A directory: its count, its rows and no next directory. */
  function DirBytes(order: Order, fs: seq<Field>, at: nat): (b: bytes)
    ensures |b| == 2 + 12 * |fs| + 4
  {
    Put16(order, |fs|) + Rows(order, fs, at) + Zeros(4)
  }

  function DataOf(f: Field): (b: bytes)
    ensures |b| == Outside(f)
  {
    if |f.value| <= 4 then [] else f.value + Zeros(|f.value| % 2)
  }

  function Data(fs: seq<Field>): (b: bytes)
    ensures |b| == OutsideAll(fs)
  {
    if fs == [] then [] else DataOf(fs[0]) + Data(fs[1..])
  }

  function Head(order: Order): bytes { (if order.Big? then BIG_MAGIC else LITTLE_MAGIC) + Put32(order, 8) }

  const LIMIT: nat := 65527

  function WithPointer(order: Order, root: seq<Field>, child: seq<Field>, pointerTag: nat): seq<Field> {
    if child == [] then root
    else root + [Field(pointerTag, 4, 1, Put32(order, 8 + 2 + (|root| + 1) * 12 + 4))]
  }

  /** Where the values begin: behind the header and the directories that are not empty. */
  function ValuesAt(root: seq<Field>, child: seq<Field>): nat {
    8 + 2 + |root| * 12 + 4 + (if child == [] then 0 else 2 + |child| * 12 + 4)
  }

  /** What encodeFilteredTIFF writes, before its size is checked; root includes the pointer. */
  function Layout(order: Order, root: seq<Field>, child: seq<Field>): bytes {
    var at := ValuesAt(root, child);
    Head(order) + DirBytes(order, root, at)
    + (if child == [] then [] else DirBytes(order, child, at + OutsideAll(root)))
    + Data(root) + Data(child)
  }

  function Encoded(order: Order, root: seq<Field>, child: seq<Field>, pointerTag: nat): Option<bytes> {
    var out := Layout(order, WithPointer(order, root, child, pointerTag), child);
    if |out| > LIMIT then None else Some(out)
  }

  // ---- the writer --------------------------------------------------------------------------------------------

  /** order.PutUint16(out[at:], ...), PutUint32 and copy: bytes overwritten in place. */
  function Splice(out: bytes, at: nat, b: bytes): (r: bytes)
    requires at + |b| <= |out|
    ensures |r| == |out|
  {
    out[..at] + b + out[at + |b|..]
  }

  /** Bytes written over the first zeros behind a prefix. */
  lemma ZerosSpliced(pre: bytes, n: nat, post: bytes, b: bytes)
    requires |b| <= n
    ensures |pre| + |b| <= |pre + Zeros(n) + post|
    ensures Splice(pre + Zeros(n) + post, |pre|, b) == pre + b + Zeros(n - |b|) + post
  {
  }

  /** Three fields and a value written one after the other into a row of zeros. */
  lemma RowSpliced(pre: bytes, post: bytes, a: bytes, b: bytes, c: bytes, v: bytes)
    requires |a| == 2 && |b| == 2 && |c| == 4 && |v| <= 4
    ensures var out := pre + Zeros(12) + post; var at := |pre|;
            && at + 12 <= |out|
            && Splice(Splice(Splice(Splice(out, at, a), at + 2, b), at + 4, c), at + 8, v)
               == pre + (a + b + c + (v + Zeros(4 - |v|))) + post
  {
    hide Zeros, Splice;
    ZerosSpliced(pre, 12, post, a);
    ZerosSpliced(pre + a, 10, post, b);
    ZerosSpliced(pre + a + b, 8, post, c);
    ZerosSpliced(pre + a + b + c, 4, post, v);
    Regrouped(pre, a, b, c, v, Zeros(4 - |v|), post);
  }

  lemma Regrouped(pre: bytes, a: bytes, b: bytes, c: bytes, v: bytes, z: bytes, post: bytes)
    ensures pre + a + b + c + v + z + post == pre + (a + b + c + (v + z)) + post
  {
  }

  lemma {:induction false} OutsideAppend(fs: seq<Field>, f: Field)
    ensures OutsideAll(fs + [f]) == OutsideAll(fs) + Outside(f) && Data(fs + [f]) == Data(fs) + DataOf(f)
  {
    if fs != [] {
      assert (fs + [f])[1..] == fs[1..] + [f];
      OutsideAppend(fs[1..], f);
    } else {
      assert (fs + [f])[1..] == [];
    }
  }

  lemma {:induction false} RowsAppend(order: Order, fs: seq<Field>, f: Field, at: nat)
    ensures Rows(order, fs + [f], at) == Rows(order, fs, at) + Row(order, f, at + OutsideAll(fs))
    decreases |fs|
  {
    hide Row;
    if fs != [] {
      assert (fs + [f])[1..] == fs[1..] + [f];
      RowsAppend(order, fs[1..], f, at + Outside(fs[0]));
    } else {
      assert (fs + [f])[1..] == [];
    }
  }

  /** One row, written field by field, and its value behind the buffer when the slot is too small. */
  method WriteRow(out: bytes, at: nat, order: Order, f: Field, ghost pre: bytes, ghost post: bytes) returns (r: bytes)
    requires out == pre + Zeros(12) + post && at == |pre| && |out| % 2 == 0
    ensures r == pre + Row(order, f, |out|) + post + DataOf(f) && |r| % 2 == 0
  {
    hide Put16, Put32, Splice, SlotOf, DataOf, Zeros;
    var slot := if |f.value| <= 4 then f.value else Put32(order, |out|);
    RowSpliced(pre, post, Put16(order, f.tag), Put16(order, f.kind), Put32(order, f.count), slot);
    r := Splice(out, at, Put16(order, f.tag));
    r := Splice(r, at + 2, Put16(order, f.kind));
    r := Splice(r, at + 4, Put32(order, f.count));
    r := Splice(r, at + 8, slot);
    SlotFilled(order, f, |out|);
    ghost var row := r;
    if |f.value| > 4 {
      r := r + f.value;
      if |r| % 2 != 0 {
        r := r + [0];
      }
    }
    ValueAppended(row, f);
  }

  lemma SlotFilled(order: Order, f: Field, at: nat)
    ensures var slot := if |f.value| <= 4 then f.value else Put32(order, at);
            slot + Zeros(4 - |slot|) == SlotOf(order, f, at)
  {
  }

  lemma ValueAppended(out: bytes, f: Field)
    requires |out| % 2 == 0
    ensures out + DataOf(f) == if |f.value| <= 4 then out
                               else if |f.value| % 2 == 0 then out + f.value else out + f.value + [0]
    ensures |out + DataOf(f)| % 2 == 0
  {
    assert Zeros(1) == [0] && Zeros(0) == [];
    Assoc(out, f.value, [0]);
    if |f.value| > 4 && |f.value| % 2 == 1 {
      assert DataOf(f) == f.value + [0];
    }
  }

  /** The inner loop of encodeFilteredTIFF: the rows of one directory go into the space kept for
      them, and values that do not fit a slot behind everything written so far. */
  method WriteRows(buffer: bytes, from: nat, order: Order, fs: seq<Field>, ghost pre: bytes, ghost post: bytes)
      returns (out: bytes)
    requires buffer == pre + Zeros(12 * |fs|) + post && from == |pre| && |buffer| % 2 == 0
    ensures out == pre + Rows(order, fs, |buffer|) + post + Data(fs) && |out| % 2 == 0
  {
    hide Row, Put16, Put32, DataOf, Rows, Data, OutsideAll, Outside;
    out := buffer;
    NoRows(order, |buffer|);
    var at, k := from, 0;
    assert pre + [] == pre && post + [] == post && fs[..0] == [];
    while k < |fs|
      invariant 0 <= k <= |fs| && at == from + 12 * k && |out| % 2 == 0
      invariant out == pre + Rows(order, fs[..k], |buffer|) + Zeros(12 * (|fs| - k)) + (post + Data(fs[..k]))
    {
      var f := fs[k];
      ghost var rows, tail := Rows(order, fs[..k], |buffer|), post + Data(fs[..k]);
      ghost var left := Zeros(12 * (|fs| - k - 1));
      assert Zeros(12 * (|fs| - k)) == Zeros(12) + left;
      assert out == (pre + rows) + Zeros(12) + (left + tail);
      assert |out| == |buffer| + OutsideAll(fs[..k]);
      out := WriteRow(out, at, order, f, pre + rows, left + tail);
      RowsAppend(order, fs[..k], f, |buffer|);
      OutsideAppend(fs[..k], f);
      assert fs[..k] + [f] == fs[..k + 1];
      assert out == (pre + rows) + Row(order, f, |buffer| + OutsideAll(fs[..k])) + (left + tail) + DataOf(f);
      RowDone(pre, rows, Row(order, f, |buffer| + OutsideAll(fs[..k])), left, post, Data(fs[..k]), DataOf(f));
      at := at + 12;
      k := k + 1;
    }
    assert fs[..k] == fs && Zeros(0) == [];
    assert pre + Rows(order, fs, |buffer|) + [] == pre + Rows(order, fs, |buffer|);
    Assoc(pre + Rows(order, fs, |buffer|), post, Data(fs));
  }

  lemma NoRows(order: Order, at: nat)
    ensures Rows(order, [], at) == [] && Data([]) == [] && OutsideAll([]) == 0
  {
  }

  lemma RowDone(pre: bytes, rows: bytes, row: bytes, left: bytes, post: bytes, data: bytes, more: bytes)
    ensures pre + rows + row + (left + (post + data)) + more == pre + (rows + row) + left + (post + (data + more))
  {
  }

  lemma CountSpliced(pre: bytes, count: bytes, n: nat, post: bytes)
    requires |count| == 2
    ensures |pre + Zeros(2 + n * 12 + 4) + post| >= |pre| + 2
    ensures Splice(pre + Zeros(2 + n * 12 + 4) + post, |pre|, count)
            == (pre + count) + Zeros(12 * n) + (Zeros(4) + post)
  {
    hide Splice, Zeros;
    ZerosSpliced(pre, 2 + n * 12 + 4, post, count);
    ZerosJoined(12 * n, 4);
    assert pre + count + (Zeros(12 * n) + Zeros(4)) + post == (pre + count) + Zeros(12 * n) + (Zeros(4) + post);
  }

  lemma DirectoryDone(order: Order, pre: bytes, fs: seq<Field>, at: nat, post: bytes, data: bytes)
    ensures pre + Put16(order, |fs|) + Rows(order, fs, at) + (Zeros(4) + post) + data
            == pre + DirBytes(order, fs, at) + post + data
  {
    hide Put16, Rows, Zeros;
  }

  /** One turn of the outer loop: a directory's count and rows go into the zeros kept for them. */
  method WriteDirectory(buffer: bytes, at: nat, order: Order, fs: seq<Field>, ghost pre: bytes, ghost post: bytes)
      returns (out: bytes)
    requires buffer == pre + Zeros(2 + |fs| * 12 + 4) + post && at == |pre| && |buffer| % 2 == 0
    ensures out == pre + DirBytes(order, fs, |buffer|) + post + Data(fs) && |out| % 2 == 0
  {
    hide Put16, Rows, Data, Zeros, Splice, DirBytes;
    CountSpliced(pre, Put16(order, |fs|), |fs|, post);
    out := Splice(buffer, at, Put16(order, |fs|));
    out := WriteRows(out, at + 2, order, fs, pre + Put16(order, |fs|), Zeros(4) + post);
    DirectoryDone(order, pre, fs, |buffer|, post, Data(fs));
  }

  lemma HeaderSpliced(magic: bytes, offset: bytes, n: nat, tail: nat)
    requires |magic| == 4 && |offset| == 4
    ensures |Zeros(8 + n + tail)| == 8 + n + tail
    ensures Splice(Splice(Zeros(8 + n + tail), 0, magic), 4, offset) == magic + offset + Zeros(n) + Zeros(tail)
  {
    hide Splice, Zeros;
    assert Zeros(n + tail) == Zeros(n) + Zeros(tail) by { ZerosJoined(n, tail); }
    assert [] + Zeros(8 + n + tail) + [] == Zeros(8 + n + tail);
    ZerosSpliced([], 8 + n + tail, [], magic);
    ZerosSpliced(magic, 4 + n + tail, [], offset);
    assert [] + magic + Zeros(4 + n + tail) + [] == magic + Zeros(4 + n + tail) + [];
    Assoc(magic + offset, Zeros(n), Zeros(tail));
  }

  lemma ZerosJoined(n: nat, m: nat)
    ensures Zeros(n + m) == Zeros(n) + Zeros(m)
  {
  }

  lemma SpaceIsEven(n: nat)
    ensures (2 + n * 12 + 4) % 2 == 0
  {
    Doubled(2 + n * 12 + 4, 3 + 6 * n);
  }

  lemma Doubled(n: nat, half: nat)
    requires n == 2 * half
    ensures n % 2 == 0
  {
  }

  /** The zeroed buffer with its header written. */
  method Opened(order: Order, n: nat, tail: nat) returns (out: bytes)
    requires n % 2 == 0 && tail % 2 == 0
    ensures |out| % 2 == 0
    ensures out == Head(order) + Zeros(n) + Zeros(tail) && |Head(order)| == 8 && |out| == 8 + n + tail
  {
    hide Put32, Zeros, Splice;
    var magic := if order.Big? then BIG_MAGIC else LITTLE_MAGIC;
    HeaderSpliced(magic, Put32(order, 8), n, tail);
    out := Zeros(8 + n + tail);
    out := Splice(out, 0, magic);
    out := Splice(out, 4, Put32(order, 8));
  }

  /** The layout as the writer leaves it, with and without a second directory. */
  lemma LayoutIs(order: Order, root: seq<Field>, child: seq<Field>, space: nat, more: nat)
    requires space == 2 + |root| * 12 + 4
    requires more == if child == [] then 0 else 2 + |child| * 12 + 4
    ensures var at := 8 + space + more;
            var pre := Head(order) + DirBytes(order, root, at);
            && |pre| == 8 + space
            && (child == [] ==> Layout(order, root, child) == pre + Zeros(more) + Data(root))
            && (child != [] ==> Layout(order, root, child)
                                == pre + DirBytes(order, child, at + OutsideAll(root)) + Data(root) + Data(child))
  {
    hide Put16, Put32, Rows, OutsideAll, DirBytes, Data, Head;
    assert |Head(order)| == 8 by {
      HeadIsEight(order);
    }
    if child == [] {
      NoData();
      NothingAdded(Head(order) + DirBytes(order, root, 8 + space), Data(root));
    }
  }

  lemma HeadIsEight(order: Order)
    ensures |Head(order)| == 8
  {
  }

  lemma NoData()
    ensures Data([]) == [] && OutsideAll([]) == 0
  {
  }

  lemma NothingAdded(pre: bytes, data: bytes)
    ensures pre + Zeros(0) + data == pre + [] + data + []
  {
  }

  /** encodeFilteredTIFF: header, two directories with their counts, then the values; None when the
      result would not fit a JPEG segment. */
  method Encode(order: Order, first: seq<Field>, child: seq<Field>, pointerTag: nat) returns (r: Option<bytes>)
    requires first != [] || child != []
    ensures r == Encoded(order, first, child, pointerTag)
  {
    hide Put32, Data, OutsideAll, Zeros, Head, DirBytes, Layout, ValuesAt;
    var root := first;
    if child != [] {
      root := root + [Field(pointerTag, 4, 1, Put32(order, 8 + 2 + (|root| + 1) * 12 + 4))];
    }
    var space := 2 + |root| * 12 + 4;
    var more := if child == [] then 0 else 2 + |child| * 12 + 4;
    ghost var at := 8 + space + more;
    ghost var pre := Head(order) + DirBytes(order, root, at);
    LayoutIs(order, root, child, space, more);
    SpaceIsEven(|root|);
    SpaceIsEven(|child|);
    var out := Opened(order, space, more);
    out := WriteDirectory(out, 8, order, root, Head(order), Zeros(more));
    if child != [] {
      out := WriteDirectory(out, 8 + space, order, child, pre, Data(root));
    }
    if |out| > LIMIT {
      return None;
    }
    return Some(out);
  }

  /** filteredTIFF. */
  function Filtered(d: bytes, camera: bool): Option<bytes> {
    if HeaderOrder(d).None? then None
    else
      var order := HeaderOrder(d).value;
      var first, child := FirstOf(order, d, camera), ChildOf(order, d, camera);
      if first == [] && child == [] then None else Encoded(order, first, child, PointerTag(camera))
  }

  function PointerTag(camera: bool): nat { if camera then EXIF_IFD else GPS_IFD }

  function FirstOf(order: Order, d: bytes, camera: bool): seq<Field>
    requires |d| >= 8
  {
    if camera then Select(order, d, Root(order, d), CameraGroup, {}) else []
  }

  function ChildOf(order: Order, d: bytes, camera: bool): seq<Field>
    requires |d| >= 8
  {
    var ss := Child(order, d, PointerTag(camera));
    if ss.None? then [] else Select(order, d, ss.value, if camera then ExposureGroup else GpsGroup, {})
  }

  method FilteredTiff(d: bytes, camera: bool) returns (r: Option<bytes>)
    ensures r == Filtered(d, camera)
  {
    hide Select, Find, Slots, Directory, Encoded, Get32;
    if HeaderOrder(d).None? {
      return None;
    }
    var order := HeaderOrder(d).value;
    var root := Directory(order, d, Get32(order, d[4..8]));
    var first: seq<Field>, child: seq<Field> := [], [];
    var pointerTag := GPS_IFD;
    if camera {
      first := SelectedEntries(order, d, root, CameraGroup);
      pointerTag := EXIF_IFD;
    }
    var pointer := Entry(order, root, pointerTag, 4, 1);
    if pointer.Some? {
      assert |pointer.value| == 4;
      var dir := Directory(order, d, Get32(order, pointer.value));
      child := SelectedEntries(order, d, dir, if camera then ExposureGroup else GpsGroup);
    }
    if |first| + |child| == 0 {
      return None;
    }
    r := Encode(order, first, child, pointerTag);
  }
}
