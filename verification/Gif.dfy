/** The two GIF walkers: stripGIF of internal/metadata/strip.go, which drops extension blocks, and
    gifFrameCount of internal/media/gif.go, which counts images. They were written apart and
    share no code, nor do they here: one reads blocks of a byte string, the other discards from a
    stream. */
module Gif {
  import opened Prelude
  import opened Bytes
  import opened Selection

  const GIF87A: bytes := [71, 73, 70, 56, 55, 97]
  const GIF89A: bytes := [71, 73, 70, 56, 57, 97]
  const LOOP: bytes := [78, 69, 84, 83, 67, 65, 80, 69, 50, 46, 48] // NETSCAPE2.0

  const EXTENSION: byte := 0x21
  const IMAGE: byte := 0x2C
  const TRAILER: byte := 0x3B
  const APPLICATION: byte := 0xFF
  const COMMENT: byte := 0xFE
  const PLAIN_TEXT: byte := 0x01
  const GRAPHIC_CONTROL: byte := 0xF9

  predicate LooksLike(d: bytes) { |d| >= 6 && (d[..6] == GIF87A || d[..6] == GIF89A) }

  /** The bytes of a colour table, when the packed field says there is one. */
  function TableSize(packed: byte): nat {
    if packed < 0x80 then 0 else 3 * [2, 4, 8, 16, 32, 64, 128, 256][packed % 8]
  }

  /** Header, logical screen descriptor and global colour table; None when the data is shorter. */
  function HeaderSize(d: bytes): Option<nat> {
    if |d| < 13 || 13 + TableSize(d[10]) > |d| then None else Some(13 + TableSize(d[10]))
  }

  // ---- the grammar (sections 15 to 27 of GIF89a) ----------------------------------------------------

  function Offset(off: nat, end: Option<nat>): Option<nat> { if end.None? then None else Some(off + end.value) }

  /** Where a chain of sub-blocks at the front of d ends. */
  function SubEnd(d: bytes): (end: Option<nat>)
    ensures end.Some? ==> 0 < end.value <= |d|
    decreases |d|
  {
    if d == [] then None
    else
      var size: nat := d[0];
      if size == 0 then Some(1)
      else if 1 + size > |d| then None
      else Offset(1 + size, SubEnd(d[1 + size..]))
  }

  function ImageEnd(d: bytes): (end: Option<nat>)
    ensures end.Some? ==> 11 < end.value <= |d|
  {
    if |d| < 10 || 10 + TableSize(d[9]) >= |d| then None
    else Offset(11 + TableSize(d[9]), SubEnd(d[11 + TableSize(d[9])..]))
  }

  /** The application, plain text and graphic control extensions have a sized block before their
      chain; a comment goes straight to it; any other label is refused. */
  predicate HasFirstBlock(tag: byte) { tag == APPLICATION || tag == PLAIN_TEXT || tag == GRAPHIC_CONTROL }

  function First(d: bytes): nat
    requires |d| >= 3
  {
    d[2]
  }

  function ExtensionEnd(d: bytes): (end: Option<nat>)
    ensures end.Some? ==> 2 < end.value <= |d|
  {
    if |d| < 2 then None
    else if HasFirstBlock(d[1]) then
      if |d| < 3 || 3 + First(d) > |d| then None else Offset(3 + First(d), SubEnd(d[3 + First(d)..]))
    else if d[1] == COMMENT then Offset(2, SubEnd(d[2..]))
    else None
  }

  function BlockEnd(d: bytes): (end: Option<nat>)
    ensures end.Some? ==> 0 < end.value <= |d|
  {
    if d == [] then None
    else if d[0] == IMAGE then ImageEnd(d)
    else if d[0] == EXTENSION then ExtensionEnd(d)
    else None
  }

  /** gifApplicationName reads eleven bytes from a fixed place, whatever the block's own size. */
  predicate NamesLoop(d: bytes) { |d| >= 14 && d[3..14] == LOOP }

  predicate Kept(d: bytes)
    requires |d| >= 2
  {
    d[0] == IMAGE || d[1] == GRAPHIC_CONTROL || (d[1] == APPLICATION && NamesLoop(d))
  }

  /** A block is its bytes, with what stripGIF decided about it where it stood. */
  datatype Block = Block(raw: bytes, keep: bool)

  function Head(d: bytes): Block
    requires BlockEnd(d).Some? && BlockEnd(d).value >= 2
  {
    Block(d[..BlockEnd(d).value], Kept(d))
  }

  lemma EndIsTwo(d: bytes)
    requires BlockEnd(d).Some?
    ensures BlockEnd(d).value >= 2
  {
  }

  /** The blocks up to the trailer; None when one is cut short or unknown, or there is no trailer. */
  function Parse(d: bytes): Option<seq<Block>>
    decreases |d|
  {
    if d == [] then None
    else if d[0] == TRAILER then Some([])
    else if BlockEnd(d).None? then None
    else EndIsTwo(d); Prepend([Head(d)], Parse(d[BlockEnd(d).value..]))
  }

  function Prepend(done: seq<Block>, rest: Option<seq<Block>>): Option<seq<Block>> {
    if rest.None? then None else Some(done + rest.value)
  }

  function Print(bs: seq<Block>): bytes { if bs == [] then [] else bs[0].raw + Print(bs[1..]) }

  function Keep(bs: seq<Block>): seq<Block> {
    if bs == [] then [] else (if bs[0].keep then [bs[0]] else []) + Keep(bs[1..])
  }

  function Stripped(d: bytes): Option<bytes> {
    if !LooksLike(d) || HeaderSize(d).None? then None
    else
      var h := HeaderSize(d).value;
      if Parse(d[h..]).None? then None else Some(d[..h] + Print(Keep(Parse(d[h..]).value)) + [TRAILER])
  }

  // ---- blocks delimit themselves ----------------------------------------------------------------------

  lemma TailOfTake(d: bytes, n: nat, k: nat, rest: bytes)
    requires k <= n <= |d|
    ensures (d[..n] + rest)[k..] == d[k..][..n - k] + rest
  {
  }

  lemma {:induction false} SubEndStable(d: bytes, rest: bytes)
    requires SubEnd(d).Some?
    ensures SubEnd(d[..SubEnd(d).value] + rest) == SubEnd(d)
    decreases |d|
  {
    var n := SubEnd(d).value;
    if d[0] != 0 {
      var size: nat := d[0];
      SubEndStable(d[1 + size..], rest);
      TailOfTake(d, n, 1 + size, rest);
    }
  }

  lemma ImageEndStable(d: bytes, rest: bytes)
    requires ImageEnd(d).Some?
    ensures ImageEnd(d[..ImageEnd(d).value] + rest) == ImageEnd(d)
  {
    hide SubEnd, TableSize;
    var n, at := ImageEnd(d).value, 11 + TableSize(d[9]);
    SubEndStable(d[at..], rest);
    TailOfTake(d, n, at, rest);
  }

  lemma ExtensionEndStable(d: bytes, rest: bytes)
    requires ExtensionEnd(d).Some?
    ensures ExtensionEnd(d[..ExtensionEnd(d).value] + rest) == ExtensionEnd(d)
  {
    hide SubEnd;
    var n := ExtensionEnd(d).value;
    var at := if HasFirstBlock(d[1]) then 3 + First(d) else 2;
    SubEndStable(d[at..], rest);
    TailOfTake(d, n, at, rest);
  }

  /** However short its declared first block, an application block that carries the loop name
      contains all eleven bytes of it: inside the name every byte is a long sub-block. */
  lemma LoopNameIsInside(d: bytes)
    requires ExtensionEnd(d).Some? && d[1] == APPLICATION && NamesLoop(d)
    ensures ExtensionEnd(d).value >= 14
  {
    var s := First(d);
    if s < 11 {
      assert d[3 + s] == d[3..14][s] == LOOP[s];
      assert d[3 + s..][0] == d[3 + s];
    }
  }

  lemma KeptStable(d: bytes, rest: bytes)
    requires BlockEnd(d).Some?
    ensures BlockEnd(d).value >= 2
    ensures var raw := d[..BlockEnd(d).value];
            BlockEnd(raw + rest) == BlockEnd(d) && (Kept(d) ==> Kept(raw + rest))
  {
    EndIsTwo(d);
    var n := BlockEnd(d).value;
    var e := d[..n] + rest;
    if d[0] == IMAGE {
      ImageEndStable(d, rest);
    } else {
      ExtensionEndStable(d, rest);
      if d[1] == APPLICATION && NamesLoop(d) {
        LoopNameIsInside(d);
        assert e[3..14] == d[3..14];
      }
    }
  }

  /** Kept blocks, each whole and each still kept wherever it is put. */
  ghost predicate Solid(bs: seq<Block>) {
    bs == [] || (Solid(bs[1..]) && bs[0].keep && SolidBlock(bs[0].raw))
  }

  ghost predicate SolidBlock(raw: bytes) {
    |raw| >= 2 && forall rest: bytes :: BlockEnd(raw + rest) == Some(|raw|) && Kept(raw + rest)
  }

  lemma {:induction false} ParsePrint(bs: seq<Block>, rest: bytes)
    requires Solid(bs)
    ensures Parse(Print(bs) + [TRAILER] + rest) == Some(bs)
  {
    hide BlockEnd, Kept;
    if bs == [] {
      assert Print(bs) + [TRAILER] + rest == [TRAILER] + rest;
    } else {
      var tail := Print(bs[1..]) + [TRAILER] + rest;
      var d := bs[0].raw + tail;
      assert Print(bs) + [TRAILER] + rest == d;
      ParsePrint(bs[1..], rest);
      assert BlockEnd(d) == Some(|bs[0].raw|) && Kept(d);
      NotTrailer(d);
      assert d[..|bs[0].raw|] == bs[0].raw && d[|bs[0].raw|..] == tail;
      assert [bs[0]] + bs[1..] == bs;
    }
  }

  lemma NotTrailer(d: bytes)
    ensures BlockEnd(d).Some? ==> d != [] && d[0] != TRAILER
  {
  }

  lemma HeadSolid(d: bytes)
    requires BlockEnd(d).Some? && Kept(d)
    ensures BlockEnd(d).value >= 2 && SolidBlock(d[..BlockEnd(d).value])
  {
    EndIsTwo(d);
    forall rest: bytes
      ensures BlockEnd(d[..BlockEnd(d).value] + rest) == BlockEnd(d) && Kept(d[..BlockEnd(d).value] + rest)
    {
      KeptStable(d, rest);
    }
  }

  lemma {:induction false} KeepSolid(d: bytes)
    requires Parse(d).Some?
    ensures Solid(Keep(Parse(d).value)) && Keep(Keep(Parse(d).value)) == Keep(Parse(d).value)
    decreases |d|
  {
    hide BlockEnd, Kept, SolidBlock;
    if d[0] != TRAILER {
      EndIsTwo(d);
      var rest := Parse(d[BlockEnd(d).value..]).value;
      KeepSolid(d[BlockEnd(d).value..]);
      assert ([Head(d)] + rest)[1..] == rest;
      if Kept(d) {
        HeadSolid(d);
        assert ([Head(d)] + Keep(rest))[1..] == Keep(rest);
      } else {
        assert Keep([Head(d)] + rest) == Keep(rest);
      }
    }
  }

  lemma {:induction false} KeptAreKept(bs: seq<Block>)
    ensures forall b :: b in Keep(bs) ==> b.keep && b in bs
  {
    if bs != [] {
      KeptAreKept(bs[1..]);
    }
  }

  /** The output's blocks are exactly the kept blocks of the input, byte for byte, with nothing
      after the trailer; stripping it again changes nothing. */
  lemma StripKeepsThePicture(d: bytes)
    requires Stripped(d).Some?
    ensures var h, o := HeaderSize(d).value, Stripped(d).value;
            var kept := Keep(Parse(d[h..]).value);
            && LooksLike(o) && HeaderSize(o) == Some(h) && o[..h] == d[..h]
            && o[h..] == Print(kept) + [TRAILER]
            && Parse(o[h..]) == Some(kept) && (forall b :: b in kept ==> b.keep)
            && Stripped(o) == Some(o)
  {
    hide Parse, Keep, Print;
    var h, o := HeaderSize(d).value, Stripped(d).value;
    var kept := Keep(Parse(d[h..]).value);
    KeepSolid(d[h..]);
    KeptAreKept(Parse(d[h..]).value);
    ParsePrint(kept, []);
    assert Print(kept) + [TRAILER] + [] == Print(kept) + [TRAILER];
    assert o[..h] == d[..h] && o[..6] == d[..6] && o[10] == d[10];
    assert o[h..] == Print(kept) + [TRAILER];
  }

  // ---- the walker of internal/metadata ------------------------------------------------------------------

  method SkipSubBlocks(data: bytes, at: nat) returns (end: Option<nat>)
    requires at <= |data|
    ensures end == Offset(at, SubEnd(data[at..]))
  {
    var i := at;
    assert i - at == 0;
    while i < |data|
      invariant at <= i <= |data|
      invariant Offset(at, SubEnd(data[at..])) == Offset(i, SubEnd(data[i..]))
    {
      var size: nat := data[i];
      assert data[i..][0] == data[i];
      i := i + 1;
      if size == 0 {
        return Some(i);
      }
      i := i + size;
      if i > |data| {
        return None;
      }
      assert data[i - 1 - size..][1 + size..] == data[i..];
    }
    return None;
  }

  method SkipImage(data: bytes, at: nat) returns (end: Option<nat>)
    requires at < |data|
    ensures end == Offset(at, ImageEnd(data[at..]))
  {
    ghost var d := data[at..];
    if at + 10 > |data| {
      return None;
    }
    assert d[9] == data[at + 9];
    var i := at + 10 + TableSize(data[at + 9]);
    if i >= |data| {
      return None;
    }
    end := SkipSubBlocks(data, i + 1);
    assert d[i + 1 - at..] == data[i + 1..];
  }

  method ScanExtension(data: bytes, at: nat) returns (end: Option<nat>)
    requires at < |data|
    ensures end == Offset(at, ExtensionEnd(data[at..]))
  {
    hide SubEnd;
    ghost var d := data[at..];
    if at + 2 > |data| {
      return None;
    }
    var kind := data[at + 1];
    assert kind == d[1];
    var i := at + 2;
    if kind == APPLICATION || kind == PLAIN_TEXT || kind == GRAPHIC_CONTROL {
      if i >= |data| {
        return None;
      }
      assert d[2] == data[i];
      var size: nat := data[i];
      i := i + size + 1;
      if i > |data| {
        return None;
      }
    } else if kind != COMMENT {
      return None;
    }
    end := SkipSubBlocks(data, i);
    assert d[i - at..] == data[i..];
  }

  lemma {:induction false} KeepAppend(bs: seq<Block>, b: Block)
    ensures Print(Keep(bs + [b])) == Print(Keep(bs)) + (if b.keep then b.raw else [])
  {
    if bs != [] {
      assert (bs + [b])[1..] == bs[1..] + [b];
      KeepAppend(bs[1..], b);
      if bs[0].keep {
        assert ([bs[0]] + Keep(bs[1..]))[1..] == Keep(bs[1..]);
        assert ([bs[0]] + Keep(bs[1..] + [b]))[1..] == Keep(bs[1..] + [b]);
      } else {
        assert Keep(bs) == Keep(bs[1..]) && Keep(bs + [b]) == Keep(bs[1..] + [b]);
      }
    } else {
      assert (bs + [b])[1..] == [];
      assert ([b] + [])[1..] == [];
    }
  }

  lemma ParseOne(data: bytes, i: nat, done: seq<Block>)
    requires i < |data|
    ensures data[i] != TRAILER && BlockEnd(data[i..]).None? ==> Parse(data[i..]).None?
    ensures data[i] == TRAILER ==> Prepend(done, Parse(data[i..])) == Some(done)
    ensures data[i] != TRAILER && BlockEnd(data[i..]).Some? ==>
              && BlockEnd(data[i..]).value >= 2
              && Prepend(done, Parse(data[i..])) ==
                 Prepend(done + [Head(data[i..])], Parse(data[i + BlockEnd(data[i..]).value..]))
  {
    hide BlockEnd, Kept;
    var d := data[i..];
    assert d[0] == data[i];
    if d[0] == TRAILER {
      assert done + [] == done;
    } else if BlockEnd(d).Some? {
      EndIsTwo(d);
      assert d[BlockEnd(d).value..] == data[i + BlockEnd(d).value..];
      var rest := Parse(d[BlockEnd(d).value..]);
      if rest.Some? {
        assert done + ([Head(d)] + rest.value) == done + [Head(d)] + rest.value;
      }
    }
  }

  lemma ParseFromStart(d: bytes)
    ensures Print(Keep([])) == [] && Prepend([], Parse(d)) == Parse(d)
    ensures d == [] ==> Parse(d).None?
  {
    assert Parse(d).Some? ==> [] + Parse(d).value == Parse(d).value;
  }

  method Strip(data: bytes) returns (r: Option<bytes>)
    ensures r == Stripped(data)
  {
    hide Parse, Keep, Print, SubEnd, ImageEnd, ExtensionEnd;
    if !LooksLike(data) || |data| < 13 {
      return None;
    }
    var header := 13 + TableSize(data[10]);
    if header > |data| {
      return None;
    }
    var out := data[..header];
    var i := header;
    ghost var done: seq<Block> := [];
    ParseFromStart(data[header..]);
    while i < |data|
      invariant header <= i <= |data|
      invariant out == data[..header] + Print(Keep(done))
      invariant Parse(data[header..]) == Prepend(done, Parse(data[i..]))
    {
      ghost var d := data[i..];
      ghost var kept := Print(Keep(done));
      assert d[0] == data[i];
      ParseOne(data, i, done);
      var end: Option<nat>;
      var keep := true;
      if data[i] == TRAILER {
        return Some(out + [TRAILER]);
      } else if data[i] == IMAGE {
        end := SkipImage(data, i);
      } else if data[i] == EXTENSION {
        end := ScanExtension(data, i);
        if end.Some? {
          var name := if i + 14 > |data| then [] else data[i + 3..i + 14];
          keep := data[i + 1] == GRAPHIC_CONTROL || (data[i + 1] == APPLICATION && name == LOOP);
          assert d[1] == data[i + 1] && (|d| >= 14 ==> d[3..14] == name);
        }
      } else {
        return None;
      }
      if end.None? {
        return None;
      }
      KeepAppend(done, Head(d));
      assert data[i..end.value] == Head(d).raw;
      if keep {
        out := out + data[i..end.value];
        Assoc(data[..header], kept, Head(d).raw);
      }
      assert kept + [] == kept;
      done := done + [Head(d)];
      i := end.value;
    }
    ParseFromStart([]);
    assert data[i..] == [];
    return None;
  }

  // ---- the walker of internal/media --------------------------------------------------------------------

  const MAX_FRAMES: nat := 100_000

  datatype Count = Frames(n: nat) | NotAGif

  /** What is left of a stream once n bytes are discarded; None when it ends before. */
  function Discard(d: bytes, n: nat): (rest: Option<bytes>)
    ensures rest.Some? ==> |rest.value| == |d| - n
  {
    if n > |d| then None else Some(d[n..])
  }

  function PowerOfTwo(n: nat): nat { if n == 0 then 1 else 2 * PowerOfTwo(n - 1) }

  /** skipGIFColorTable: three bytes a colour, and the low bits say how many. */
  function AfterColorTable(d: bytes, packed: byte): (rest: Option<bytes>)
    ensures rest.Some? ==> |rest.value| <= |d|
  {
    if packed / 0x80 == 0 then Some(d) else Discard(d, 3 * PowerOfTwo(packed % 8 + 1))
  }

  /** skipSubBlocks: lengths and their data, to a length of zero. */
  function AfterSubBlocks(d: bytes): (rest: Option<bytes>)
    ensures rest.Some? ==> |rest.value| < |d|
    decreases |d|
  {
    if d == [] then None
    else if d[0] == 0 then Some(d[1..])
    else
      var rest := Discard(d[1..], d[0]);
      if rest.None? then None else AfterSubBlocks(rest.value)
  }

  /** skipGIFImage, once the marker is read: nine bytes of descriptor, the last of which says
      whether there is a colour table, a code size and the image data. */
  function AfterImage(d: bytes): (rest: Option<bytes>)
    ensures rest.Some? ==> |rest.value| < |d|
  {
    if |d| < 9 then None
    else
      var table := AfterColorTable(d[9..], d[8]);
      if table.None? || table.value == [] then None else AfterSubBlocks(table.value[1..])
  }

  /** The loop of gifFrameCount from a block boundary. Data that stops is forgiven; a byte that
      cannot start a block is not. An extension is its label and then, for every label alike,
      a chain of sub-blocks. */
  function CountFrom(d: bytes, frames: nat): Count
    decreases |d|
  {
    if frames > MAX_FRAMES || d == [] || d[0] == TRAILER then Frames(frames)
    else if d[0] == EXTENSION then
      if |d| < 2 || AfterSubBlocks(d[2..]).None? then Frames(frames)
      else CountFrom(AfterSubBlocks(d[2..]).value, frames)
    else if d[0] == IMAGE then
      if AfterImage(d[1..]).None? then Frames(frames + 1)
      else CountFrom(AfterImage(d[1..]).value, frames + 1)
    else NotAGif
  }

  function FrameCount(d: bytes): Count {
    if |d| < 13 || (d[..6] != GIF87A && d[..6] != GIF89A) then NotAGif
    else
      var rest := AfterColorTable(d[13..], d[10]);
      if rest.None? then NotAGif else CountFrom(rest.value, 0)
  }

  /** Where a skip has left the reader: at the rest the specification names, or past the end. */
  predicate Skipped(data: bytes, end: Option<nat>, rest: Option<bytes>) {
    && (end.Some? <==> rest.Some?)
    && (end.Some? ==> end.value <= |data| && data[end.value..] == rest.value)
  }

  method SkipGifColorTable(data: bytes, pos: nat, packed: byte) returns (end: Option<nat>)
    requires pos <= |data|
    ensures Skipped(data, end, AfterColorTable(data[pos..], packed))
  {
    if packed / 0x80 == 0 {
      return Some(pos);
    }
    var size := 3 * PowerOfTwo(packed % 8 + 1);
    if pos + size > |data| {
      return None;
    }
    assert data[pos..][size..] == data[pos + size..];
    return Some(pos + size);
  }

  method SkipChain(data: bytes, pos: nat) returns (end: Option<nat>)
    requires pos <= |data|
    ensures Skipped(data, end, AfterSubBlocks(data[pos..]))
  {
    var i := pos;
    while i < |data|
      invariant pos <= i <= |data|
      invariant AfterSubBlocks(data[pos..]) == AfterSubBlocks(data[i..])
    {
      ghost var d := data[i..];
      var n: nat := data[i];
      assert d[0] == data[i] && d[1..] == data[i + 1..];
      if n == 0 {
        return Some(i + 1);
      }
      if i + 1 + n > |data| {
        return None;
      }
      assert d[1..][n..] == data[i + 1 + n..];
      i := i + 1 + n;
    }
    return None;
  }

  method SkipGifImage(data: bytes, pos: nat) returns (end: Option<nat>)
    requires pos <= |data|
    ensures Skipped(data, end, AfterImage(data[pos..]))
  {
    hide AfterSubBlocks, AfterColorTable;
    ghost var d := data[pos..];
    if pos + 9 > |data| {
      return None;
    }
    assert d[8] == data[pos + 8] && d[9..] == data[pos + 9..];
    end := SkipGifColorTable(data, pos + 9, data[pos + 8]);
    if end.None? || end.value == |data| {
      return None;
    }
    assert data[end.value..][1..] == data[end.value + 1..];
    end := SkipChain(data, end.value + 1);
  }

  /** gifFrameCount. The buffered reader is the data and a position; a skip that meets the end of
      the data is the truncation the original forgives. */
  method GifFrameCount(data: bytes) returns (count: Count)
    ensures count == FrameCount(data)
  {
    hide AfterSubBlocks, AfterImage, AfterColorTable;
    if |data| < 6 || (data[..6] != GIF87A && data[..6] != GIF89A) || |data| < 13 {
      return NotAGif;
    }
    var start := SkipGifColorTable(data, 13, data[10]);
    if start.None? {
      return NotAGif;
    }
    var pos, frames := start.value, 0;
    while frames <= MAX_FRAMES
      invariant pos <= |data|
      invariant FrameCount(data) == CountFrom(data[pos..], frames)
      decreases |data| - pos
    {
      ghost var d := data[pos..];
      if pos == |data| {
        return Frames(frames);
      }
      assert d[0] == data[pos];
      var marker := data[pos];
      if marker == TRAILER {
        return Frames(frames);
      } else if marker == EXTENSION {
        if pos + 2 > |data| {
          return Frames(frames);
        }
        assert d[2..] == data[pos + 2..];
        var end := SkipChain(data, pos + 2);
        if end.None? {
          return Frames(frames);
        }
        pos := end.value;
      } else if marker == IMAGE {
        frames := frames + 1;
        assert d[1..] == data[pos + 1..];
        var end := SkipGifImage(data, pos + 1);
        if end.None? {
          return Frames(frames);
        }
        pos := end.value;
      } else {
        return NotAGif;
      }
    }
    return Frames(frames);
  }

  // ---- the two read the same parts ---------------------------------------------------------------------

  lemma SameColorTable(d: bytes, packed: byte)
    ensures AfterColorTable(d, packed) == Discard(d, TableSize(packed))
  {
    assert PowerOfTwo(1) == 2 && PowerOfTwo(2) == 4 && PowerOfTwo(3) == 8 && PowerOfTwo(4) == 16;
    assert PowerOfTwo(5) == 32 && PowerOfTwo(6) == 64 && PowerOfTwo(7) == 128 && PowerOfTwo(8) == 256;
  }

  function RestAt(d: bytes, end: Option<nat>): Option<bytes>
    requires end.Some? ==> end.value <= |d|
  {
    if end.None? then None else Some(d[end.value..])
  }

  lemma {:induction false} SameChain(d: bytes)
    ensures AfterSubBlocks(d) == RestAt(d, SubEnd(d))
    decreases |d|
  {
    if d != [] && d[0] != 0 {
      var size: nat := d[0];
      if 1 + size <= |d| {
        assert d[1..][size..] == d[1 + size..];
        SameChain(d[1 + size..]);
        var end := SubEnd(d[1 + size..]);
        assert end.Some? ==> d[1 + size..][end.value..] == d[1 + size + end.value..];
      }
    }
  }

  lemma SameImage(d: bytes)
    requires d != []
    ensures AfterImage(d[1..]) == RestAt(d, ImageEnd(d))
  {
    hide AfterSubBlocks, SubEnd, TableSize, AfterColorTable;
    if |d| >= 10 {
      var size := TableSize(d[9]);
      assert d[1..][8] == d[9] && d[1..][9..] == d[10..];
      SameColorTable(d[10..], d[9]);
      if 10 + size < |d| {
        assert d[10..][size..] == d[10 + size..] && d[10 + size..][1..] == d[11 + size..];
        SameChain(d[11 + size..]);
        var end := SubEnd(d[11 + size..]);
        assert end.Some? ==> d[11 + size..][end.value..] == d[11 + size + end.value..];
      }
    }
  }

  /** One turn of the counter in the terms of the grammar. */
  lemma CountCases(d: bytes, frames: nat)
    ensures frames > MAX_FRAMES || d == [] || d[0] == TRAILER ==> CountFrom(d, frames) == Frames(frames)
    ensures frames <= MAX_FRAMES && d != [] && d[0] == EXTENSION ==>
              CountFrom(d, frames) == if |d| < 2 || SubEnd(d[2..]).None? then Frames(frames)
                                      else CountFrom(d[2 + SubEnd(d[2..]).value..], frames)
    ensures frames <= MAX_FRAMES && d != [] && d[0] == IMAGE ==>
              CountFrom(d, frames) == if ImageEnd(d).None? then Frames(frames + 1)
                                      else CountFrom(d[ImageEnd(d).value..], frames + 1)
  {
    hide SubEnd, ImageEnd, AfterSubBlocks, AfterImage;
    if d != [] && d[0] == IMAGE {
      SameImage(d);
    } else if |d| >= 2 {
      SameChain(d[2..]);
      assert SubEnd(d[2..]).Some? ==> d[2..][SubEnd(d[2..]).value..] == d[2 + SubEnd(d[2..]).value..];
    }
  }

  lemma SameStart(d: bytes)
    requires LooksLike(d) && HeaderSize(d).Some?
    ensures FrameCount(d) == CountFrom(d[HeaderSize(d).value..], 0)
  {
    hide CountFrom, TableSize, AfterColorTable;
    SameColorTable(d[13..], d[10]);
    assert d[13..][TableSize(d[10])..] == d[13 + TableSize(d[10])..];
  }

  // ---- the two agree -----------------------------------------------------------------------------------

  function Images(bs: seq<Block>): nat {
    if bs == [] then 0 else (if bs[0].raw != [] && bs[0].raw[0] == IMAGE then 1 else 0) + Images(bs[1..])
  }

  /** Every sized first block of an extension is non-empty, as its standard size says. */
  predicate FirstBlocksFilled(bs: seq<Block>) {
    bs == [] || (FirstBlockFilled(bs[0].raw) && FirstBlocksFilled(bs[1..]))
  }

  predicate FirstBlockFilled(raw: bytes) {
    |raw| >= 3 && raw[0] == EXTENSION && HasFirstBlock(raw[1]) ==> raw[2] != 0
  }

  function Min(a: nat, b: nat): nat { if a < b then a else b }

  /** One walker skips the first block by its size, the other as the first of the chain. */
  lemma SameExtensionEnd(d: bytes)
    requires ExtensionEnd(d).Some? && d[0] == EXTENSION && FirstBlockFilled(d[..ExtensionEnd(d).value])
    ensures Offset(2, SubEnd(d[2..])) == ExtensionEnd(d)
  {
    if HasFirstBlock(d[1]) {
      assert d[2..][0] == d[2] && d[2..][1 + First(d)..] == d[3 + First(d)..];
    }
  }

  lemma {:induction false} CountAgrees(d: bytes, frames: nat)
    requires Parse(d).Some? && FirstBlocksFilled(Parse(d).value) && frames <= MAX_FRAMES + 1
    ensures CountFrom(d, frames) == Frames(Min(frames + Images(Parse(d).value), MAX_FRAMES + 1))
    decreases |d|
  {
    hide SubEnd, ImageEnd, ExtensionEnd, Kept, CountFrom, FirstBlockFilled;
    CountCases(d, frames);
    if d[0] != TRAILER && frames <= MAX_FRAMES {
      EndIsTwo(d);
      var tail := d[BlockEnd(d).value..];
      var rest := Parse(tail).value;
      assert ([Head(d)] + rest)[1..] == rest && Parse(d).value[0] == Head(d);
      if d[0] == EXTENSION {
        SameExtensionEnd(d);
        CountAgrees(tail, frames);
      } else {
        CountAgrees(tail, frames + 1);
      }
    }
  }

  lemma {:induction false} KeepKeepsImages(d: bytes)
    requires Parse(d).Some?
    ensures Images(Keep(Parse(d).value)) == Images(Parse(d).value)
    ensures FirstBlocksFilled(Parse(d).value) ==> FirstBlocksFilled(Keep(Parse(d).value))
    decreases |d|
  {
    hide SubEnd, ImageEnd, ExtensionEnd, FirstBlockFilled;
    if d[0] != TRAILER {
      EndIsTwo(d);
      var rest := Parse(d[BlockEnd(d).value..]).value;
      KeepKeepsImages(d[BlockEnd(d).value..]);
      assert ([Head(d)] + rest)[1..] == rest && ([Head(d)] + Keep(rest))[1..] == Keep(rest);
      assert Keep([Head(d)] + rest) == if Kept(d) then [Head(d)] + Keep(rest) else Keep(rest);
    }
  }

  /** For every GIF the stripper accepts whose sized first blocks are filled, the frame count is
      the number of image blocks, capped at 100,001, and stripping does not change it. */
  lemma WalkersAgree(d: bytes)
    requires Stripped(d).Some? && FirstBlocksFilled(Parse(d[HeaderSize(d).value..]).value)
    ensures FrameCount(d) == Frames(Min(Images(Parse(d[HeaderSize(d).value..]).value), MAX_FRAMES + 1))
    ensures FrameCount(Stripped(d).value) == FrameCount(d)
  {
    hide Parse, Keep, Print, Images, FirstBlocksFilled, CountFrom;
    var h := HeaderSize(d).value;
    StripKeepsThePicture(d);
    KeepKeepsImages(d[h..]);
    SameStart(d);
    SameStart(Stripped(d).value);
    CountAgrees(d[h..], 0);
    CountAgrees(Stripped(d).value[h..], 0);
  }

  /** A still of 20 bytes whose graphic control block declares an empty first block: the stripper
      accepts it, the counter meets a byte that starts no block. */
  const EMPTY_FIRST: bytes := GIF89A + [1, 0, 1, 0, 0, 0, 0] + [EXTENSION, GRAPHIC_CONTROL, 0, 1, 7, 0, TRAILER]

  lemma EmptyFirstBlockDisagrees()
    ensures Stripped(EMPTY_FIRST).Some? && FrameCount(EMPTY_FIRST).NotAGif?
  {
    var d: bytes := [EXTENSION, GRAPHIC_CONTROL, 0, 1, 7, 0, TRAILER];
    assert EMPTY_FIRST[13..] == d && EMPTY_FIRST[..6] == GIF89A;
    var chain: bytes, last: bytes := [1, 7, 0, TRAILER], [0, TRAILER];
    assert d[3..] == chain && chain[2..] == last;
    assert SubEnd(last) == Some(1) && SubEnd(chain) == Some(3);
    assert ExtensionEnd(d) == Some(6) && d[6..] == [TRAILER];
    assert EMPTY_FIRST[10] == 0 && HeaderSize(EMPTY_FIRST) == Some(13);
    assert Parse(d[6..]) == Some([]) && BlockEnd(d) == Some(6) && Parse(d).Some?;
    SameStart(EMPTY_FIRST);
    assert d[2..][0] == 0 && d[2..][1..] == d[3..];
    assert AfterSubBlocks(d[2..]) == Some(d[3..]);
    assert CountFrom(d[3..], 0) == NotAGif;
  }

  // ---- what stays, by label ----------------------------------------------------------------------------

  /** Images 0x2C, and of the extensions 0x21 the graphic control 0xF9 and the application NETSCAPE2.0,
      which is the number of repetitions. Comments, plain text and other applications are not. */
  predicate IsPicture(b: Block) {
    && |b.raw| >= 2
    && (|| b.raw[0] == 0x2C
        || (b.raw[0] == 0x21 && b.raw[1] == 0xF9)
        || (b.raw[0] == 0x21 && b.raw[1] == 0xFF && |b.raw| >= 14
            && b.raw[3..14] == [78, 69, 84, 83, 67, 65, 80, 69, 50, 46, 48]))
  }

  lemma PictureIsKept(d: bytes)
    requires BlockEnd(d).Some?
    ensures BlockEnd(d).value >= 2 && (Head(d).keep <==> IsPicture(Head(d)))
  {
    EndIsTwo(d);
    var n := BlockEnd(d).value;
    assert d[..n][0] == d[0] && d[..n][1] == d[1];
    if d[0] == EXTENSION && d[1] == APPLICATION {
      if NamesLoop(d) {
        LoopNameIsInside(d);
      }
      if n >= 14 {
        assert d[..n][3..14] == d[3..14];
      }
    }
  }

  ghost predicate Decided(bs: seq<Block>) { forall b :: b in bs ==> (b.keep <==> IsPicture(b)) }

  lemma {:induction false} BlocksAreDecided(d: bytes)
    requires Parse(d).Some?
    ensures Decided(Parse(d).value)
    decreases |d|
  {
    hide BlockEnd, Kept, IsPicture;
    if d[0] != TRAILER {
      EndIsTwo(d);
      PictureIsKept(d);
      BlocksAreDecided(d[BlockEnd(d).value..]);
    }
  }

  lemma {:induction false} KeepLast(bs: seq<Block>, b: Block)
    ensures Keep(bs + [b]) == Keep(bs) + (if b.keep then [b] else [])
  {
    if bs != [] {
      assert (bs + [b])[1..] == bs[1..] + [b];
      KeepLast(bs[1..], b);
    } else {
      assert (bs + [b])[1..] == [];
    }
  }

  lemma {:induction false} KeepIsPicture(bs: seq<Block>) returns (at: seq<nat>)
    requires Decided(bs)
    ensures Picks(bs, at, Keep(bs), IsPicture)
  {
    hide IsPicture, Picks;
    at := [];
    if bs == [] {
      NoneToPick(IsPicture);
    } else {
      var before, b := bs[..|bs| - 1], bs[|bs| - 1];
      assert bs == before + [b] && b in bs;
      at := KeepIsPicture(before);
      KeepLast(before, b);
      OneMore(before, b, at, Keep(before), IsPicture);
      if IsPicture(b) {
        at := at + [|before|];
      } else {
        assert Keep(before) + [] == Keep(before);
      }
    }
  }

  /** For every image that is taken: the output is the header, the screen descriptor and the colour
      table as they were, byte for byte and in order the blocks that are part of the picture, and the
      trailer. */
  lemma ThePictureStays(d: bytes) returns (at: seq<nat>, ys: seq<Block>)
    requires Stripped(d).Some?
    ensures var h := HeaderSize(d).value;
            Picks(Parse(d[h..]).value, at, ys, IsPicture) && Stripped(d).value == d[..h] + Print(ys) + [0x3B]
  {
    hide Parse, Print, Keep, IsPicture;
    var bs := Parse(d[HeaderSize(d).value..]).value;
    BlocksAreDecided(d[HeaderSize(d).value..]);
    ys := Keep(bs);
    at := KeepIsPicture(bs);
  }

  /** The blocks are the input: one behind the other from the header to the trailer. */
  lemma {:induction false} BlocksAreTheInput(d: bytes)
    requires Parse(d).Some?
    ensures StartsWith(d, Print(Parse(d).value) + [0x3B])
    decreases |d|
  {
    hide BlockEnd, Kept;
    if d[0] == TRAILER {
      assert d[..1] == [0x3B];
    } else {
      EndIsTwo(d);
      var n := BlockEnd(d).value;
      BlocksAreTheInput(d[n..]);
      var rest := Print(Parse(d[n..]).value) + [0x3B];
      assert ([Head(d)] + Parse(d[n..]).value)[1..] == Parse(d[n..]).value;
      assert Print(Parse(d).value) + [0x3B] == d[..n] + rest;
      assert d[..n + |rest|] == d[..n] + d[n..][..|rest|];
    }
  }
}
