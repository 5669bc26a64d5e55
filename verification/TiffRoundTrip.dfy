/** Reading back what the rebuild of internal/metadata/filter_tiff.go wrote: the layout and the two
    readers are inverse, entry by entry and value by value. */
module TiffRoundTrip {
  import opened Prelude
  import opened Bytes
  import opened Tiff
  import opened TiffFilter

  /** A field as selectedEntries makes it: its numbers fit their widths and its value its type. */
  predicate Sound(f: Field) {
    && f.tag < U16 && f.kind < U16 && f.count < U32
    && |f.value| == TypeSize(f.kind) * f.count && 0 < |f.value| <= 4096
  }

  predicate AllSound(fs: seq<Field>) { forall f :: f in fs ==> Sound(f) }

  /** A field whose numbers fit their widths, whatever its value. */
  predicate InWidth(f: Field) { f.tag < U16 && f.kind < U16 && f.count < U32 }

  predicate AllInWidth(fs: seq<Field>) { forall f :: f in fs ==> InWidth(f) }

  lemma SoundIsInWidth(fs: seq<Field>)
    requires AllSound(fs)
    ensures AllInWidth(fs)
  {
    hide TypeSize;
    forall f | f in fs
      ensures InWidth(f)
    {
      assert Sound(f);
    }
  }

  // ---- one entry ---------------------------------------------------------------------------------------------

  function SlotFor(order: Order, f: Field, at: nat): (s: Slot)
    ensures |s.value| == 4
  {
    Slot(f.tag, f.kind, f.count, SlotOf(order, f, at))
  }

  lemma FourParts(a: bytes, b: bytes, c: bytes, v: bytes, rest: bytes)
    requires |a| == 2 && |b| == 2 && |c| == 4 && |v| == 4
    ensures var e := a + b + c + v + rest;
            e[..2] == a && e[2..4] == b && e[4..8] == c && e[8..12] == v && e[12..] == rest
  {
  }

  lemma RowReadsBack(order: Order, f: Field, at: nat, rest: bytes)
    requires f.tag < U16 && f.kind < U16 && f.count < U32
    ensures var e := Row(order, f, at) + rest;
            SlotAt(order, e) == SlotFor(order, f, at) && e[12..] == rest
  {
    hide Put16, Put32, Get16, Get32, SlotOf;
    FourParts(Put16(order, f.tag), Put16(order, f.kind), Put32(order, f.count), SlotOf(order, f, at), rest);
    Get16Put16(order, f.tag);
    Get16Put16(order, f.kind);
    Get32Put32(order, f.count);
  }

  /** The slots of a directory whose values begin at `at`. */
  function SlotsFor(order: Order, fs: seq<Field>, at: nat): (ss: seq<Slot>)
    ensures |ss| == |fs| && forall s :: s in ss ==> |s.value| == 4
  {
    if fs == [] then [] else [SlotFor(order, fs[0], at)] + SlotsFor(order, fs[1..], at + Outside(fs[0]))
  }

  lemma {:induction false} RowsReadBack(order: Order, fs: seq<Field>, at: nat)
    requires AllInWidth(fs)
    ensures Slots(order, Rows(order, fs, at)) == SlotsFor(order, fs, at)
    decreases |fs|
  {
    hide Row, SlotAt, SlotFor, Outside;
    if fs != [] {
      var rest := Rows(order, fs[1..], at + Outside(fs[0]));
      assert InWidth(fs[0]);
      RowReadsBack(order, fs[0], at, rest);
      RowsReadBack(order, fs[1..], at + Outside(fs[0]));
    }
  }

  // ---- one directory -----------------------------------------------------------------------------------------

  lemma DirectoryParts(pre: bytes, count: bytes, rows: bytes, post: bytes)
    requires |count| == 2
    ensures var d := pre + (count + rows + Zeros(4)) + post; var at := |pre|;
            && |d| >= at + 2 + |rows| + 4
            && d[at..at + 2] == count && d[at + 2..at + 2 + |rows|] == rows
  {
  }

  lemma DirectoryReadsBack(order: Order, pre: bytes, fs: seq<Field>, at: nat, post: bytes)
    requires |pre| >= 8 && |fs| < U16 && AllInWidth(fs)
    ensures Slots(order, Directory(order, pre + DirBytes(order, fs, at) + post, |pre|)) == SlotsFor(order, fs, at)
  {
    hide Put16, Get16, Rows, Slots, SlotsFor, AllInWidth, Zeros;
    DirectoryParts(pre, Put16(order, |fs|), Rows(order, fs, at), post);
    Get16Put16(order, |fs|);
    RowsReadBack(order, fs, at);
  }

  // ---- the values --------------------------------------------------------------------------------------------

  /** The outside values of the fields lie in `out` one after the other, from `at` on. */
  ghost predicate Holds(out: bytes, at: nat, fs: seq<Field>) {
    at + OutsideAll(fs) <= |out| && out[at..at + OutsideAll(fs)] == Data(fs)
  }

  lemma HoldsFirst(out: bytes, at: nat, fs: seq<Field>)
    requires Holds(out, at, fs) && fs != []
    ensures Holds(out, at + Outside(fs[0]), fs[1..])
    ensures |fs[0].value| > 4 ==> at + |fs[0].value| <= |out| && out[at..at + |fs[0].value|] == fs[0].value
    ensures at <= |out|
  {
    hide Data, OutsideAll, Outside, DataOf;
    var f := fs[0];
    assert Data(fs) == DataOf(f) + Data(fs[1..]) && OutsideAll(fs) == Outside(f) + OutsideAll(fs[1..]) by { Unfold(fs); }
    Window(out, at, DataOf(f), Data(fs[1..]));
    if |f.value| > 4 {
      ValueFirst(f);
      Window(out, at, f.value, DataOf(f)[|f.value|..]);
    }
  }

  lemma EvenOne(f: Field)
    ensures Outside(f) % 2 == 0
  {
  }

  lemma Unfold(fs: seq<Field>)
    requires fs != []
    ensures Data(fs) == DataOf(fs[0]) + Data(fs[1..]) && OutsideAll(fs) == Outside(fs[0]) + OutsideAll(fs[1..])
  {
  }

  lemma ValueFirst(f: Field)
    requires |f.value| > 4
    ensures |DataOf(f)| >= |f.value| && DataOf(f) == f.value + DataOf(f)[|f.value|..]
  {
  }

  lemma Window(out: bytes, at: nat, a: bytes, b: bytes)
    requires at + |a| + |b| <= |out| && out[at..at + |a| + |b|] == a + b
    ensures out[at..at + |a|] == a && out[at + |a|..at + |a| + |b|] == b
  {
    var w := out[at..at + |a| + |b|];
    assert out[at..at + |a|] == w[..|a|];
    assert out[at + |a|..at + |a| + |b|] == w[|a|..];
  }

  lemma ValueReadsBack(order: Order, out: bytes, f: Field, at: nat)
    requires Sound(f) && 8 <= at < U32
    requires |f.value| > 4 ==> at + |f.value| <= |out| && out[at..at + |f.value|] == f.value
    ensures EntryData(order, out, SlotFor(order, f, at)) == Some(f.value)
  {
    hide Put32, Get32, TypeSize;
    Get32Put32(order, at);
    if |f.value| <= 4 {
      assert (f.value + Zeros(4 - |f.value|))[..|f.value|] == f.value;
    }
  }

  /** Where every outside value lies: behind the directories, inside the payload, at an even offset. */
  ghost predicate Placed(out: bytes, order: Order, f: Field, s: Slot) {
    && (s.tag, s.kind, s.count) == (f.tag, f.kind, f.count) && |s.value| == 4
    && EntryData(order, out, s) == Some(f.value)
    && (|f.value| > 4 ==> var at := Get32(order, s.value); at % 2 == 0 && 8 <= at && at + |f.value| <= |out|)
  }

  lemma {:induction false} ValuesReadBack(order: Order, out: bytes, fs: seq<Field>, at: nat, k: nat)
    requires Holds(out, at, fs) && AllSound(fs) && 8 <= at && |out| < U32 && at % 2 == 0 && k < |fs|
    ensures Placed(out, order, fs[k], SlotsFor(order, fs, at)[k])
    decreases k
  {
    hide Sound, EntryData, SlotOf, Data, Outside, OutsideAll, Holds, SlotFor, Placed;
    assert Sound(fs[0]);
    HoldsFirst(out, at, fs);
    EvenOne(fs[0]);
    if k == 0 {
      FirstPlaced(order, out, fs[0], at);
    } else {
      ValuesReadBack(order, out, fs[1..], at + Outside(fs[0]), k - 1);
    }
  }

  lemma FirstPlaced(order: Order, out: bytes, f: Field, at: nat)
    requires Sound(f) && 8 <= at <= |out| && |out| < U32 && at % 2 == 0
    requires |f.value| > 4 ==> at + |f.value| <= |out| && out[at..at + |f.value|] == f.value
    ensures Placed(out, order, f, SlotFor(order, f, at))
  {
    hide Put32, Get32, EntryData, TypeSize;
    ValueReadsBack(order, out, f, at);
    Get32Put32(order, at);
  }

  // ---- the whole payload -------------------------------------------------------------------------------------

  function ChildAt(root: seq<Field>): nat { 8 + 2 + |root| * 12 + 4 }

  lemma HeadReadsBack(order: Order, rest: bytes)
    ensures HeaderOrder(Head(order) + rest) == Some(order) && Get32(order, (Head(order) + rest)[4..8]) == 8
  {
    hide Put32, Get32;
    var magic := if order.Big? then BIG_MAGIC else LITTLE_MAGIC;
    var d := Head(order) + rest;
    assert d[..4] == magic && d[4..8] == Put32(order, 8);
    Get32Put32(order, 8);
  }

  lemma SliceOf(pre: bytes, a: bytes, post: bytes)
    ensures |pre + a + post| == |pre| + |a| + |post| && (pre + a + post)[|pre|..|pre| + |a|] == a
  {
  }

  lemma RootPart(order: Order, root: seq<Field>, child: seq<Field>, rest: bytes)
    requires var at := ValuesAt(root, child);
             Layout(order, root, child) == Head(order) + DirBytes(order, root, at) + rest
    requires AllInWidth(root) && |root| < U16
    ensures var out := Layout(order, root, child);
            HeaderOrder(out) == Some(order) && Root(order, out) == SlotsFor(order, root, ValuesAt(root, child))
  {
    hide DirBytes, Head, Layout, Directory, Slots, Get32, SlotsFor, AllInWidth, ValuesAt, HeaderOrder;
    HeadIsEight(order);
    HeadReadsBack(order, DirBytes(order, root, ValuesAt(root, child)) + rest);
    Assoc(Head(order), DirBytes(order, root, ValuesAt(root, child)), rest);
    DirectoryReadsBack(order, Head(order), root, ValuesAt(root, child), rest);
  }

  lemma LayoutRegrouped(head: bytes, dir: bytes, next: bytes, data: bytes, more: bytes)
    ensures head + dir + next + data + more == head + dir + (next + data + more)
    ensures head + dir + next + data + more == head + dir + next + (data + more)
    ensures head + dir + next + data + more == head + dir + next + data + more + []
  {
  }

  /** The parts of the payload, as the reader will ask for them. */
  lemma LayoutParts(order: Order, root: seq<Field>, child: seq<Field>)
    ensures var out := Layout(order, root, child); var at := ValuesAt(root, child);
            var next := if child == [] then [] else DirBytes(order, child, at + OutsideAll(root));
            var pre := Head(order) + DirBytes(order, root, at);
            && out == pre + (next + Data(root) + Data(child))
            && out == pre + next + (Data(root) + Data(child))
            && |pre| == ChildAt(root)
            && Holds(out, at, root) && Holds(out, at + OutsideAll(root), child)
            && |out| >= 12 * |root| && |out| >= 12 * |child|
  {
    hide Head, DirBytes, Data, OutsideAll;
    HeadIsEight(order);
    var at := ValuesAt(root, child);
    var next := if child == [] then [] else DirBytes(order, child, at + OutsideAll(root));
    LayoutRegrouped(Head(order), DirBytes(order, root, at), next, Data(root), Data(child));
    var pre := Head(order) + DirBytes(order, root, at) + next;
    assert |pre| == at;
    SliceOf(pre, Data(root), Data(child));
    SliceOf(pre + Data(root), Data(child), []);
  }

  /** Reading back what was laid out gives every entry of both directories again: its tag, type and
      count in the same place and its value byte for byte, with the values that lie outside at even
      offsets inside the payload. */
  lemma LayoutReadsBack(order: Order, root: seq<Field>, child: seq<Field>)
    requires AllSound(root) && AllSound(child) && |Layout(order, root, child)| <= LIMIT
    ensures var out := Layout(order, root, child);
            && HeaderOrder(out) == Some(order)
            && Reproduced(order, out, Root(order, out), root)
            && (child != [] ==> Reproduced(order, out, Slots(order, Directory(order, out, ChildAt(root))), child))
  {
    hide Layout, ValuesAt, DirBytes, Data, OutsideAll, Slots, Directory, SlotsFor, AllSound, Head, Placed, Holds, HeaderOrder, Root;
    LayoutSlots(order, root, child);
    var out, at := Layout(order, root, child), ValuesAt(root, child);
    LayoutParts(order, root, child);
    EvenValues(root, child);
    EvenOutside(root);
    forall k: nat | k < |root|
      ensures Placed(out, order, root[k], SlotsFor(order, root, at)[k])
    {
      ValuesReadBack(order, out, root, at, k);
    }
    forall k: nat | k < |child|
      ensures Placed(out, order, child[k], SlotsFor(order, child, at + OutsideAll(root))[k])
    {
      ValuesReadBack(order, out, child, at + OutsideAll(root), k);
    }
  }

  /** The entries of a directory are these fields, in this order. */
  ghost predicate Reproduced(order: Order, out: bytes, ss: seq<Slot>, fs: seq<Field>) {
    |ss| == |fs| && forall k: nat :: k < |fs| ==> Placed(out, order, fs[k], ss[k])
  }

  lemma EvenValues(root: seq<Field>, child: seq<Field>)
    ensures ValuesAt(root, child) % 2 == 0 && ValuesAt(root, child) >= 8
  {
    SpaceIsEven(|root|);
    SpaceIsEven(|child|);
  }

  lemma {:induction false} EvenOutside(fs: seq<Field>)
    ensures OutsideAll(fs) % 2 == 0
  {
    if fs != [] {
      EvenOutside(fs[1..]);
    }
  }

  lemma LayoutSlots(order: Order, root: seq<Field>, child: seq<Field>)
    requires AllSound(root) && AllSound(child) && |Layout(order, root, child)| <= LIMIT
    ensures var out := Layout(order, root, child);
            && HeaderOrder(out) == Some(order)
            && Root(order, out) == SlotsFor(order, root, ValuesAt(root, child))
            && (child != [] ==> Slots(order, Directory(order, out, ChildAt(root)))
                                == SlotsFor(order, child, ValuesAt(root, child) + OutsideAll(root)))
  {
    hide Layout, ValuesAt, DirBytes, Data, OutsideAll, Slots, Directory, SlotsFor, AllSound, AllInWidth, Head, Holds, HeaderOrder, Root;
    SoundIsInWidth(root);
    SoundIsInWidth(child);
    LayoutParts(order, root, child);
    var at := ValuesAt(root, child);
    var next := if child == [] then [] else DirBytes(order, child, at + OutsideAll(root));
    RootPart(order, root, child, next + Data(root) + Data(child));
    if child != [] {
      DirectoryReadsBack(order, Head(order) + DirBytes(order, root, at), child, at + OutsideAll(root),
                         Data(root) + Data(child));
    }
  }
}
