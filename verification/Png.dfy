/** stripPNG of internal/metadata/strip.go: whole chunks are dropped, the rest is untouched. */
module Png {
  import opened Prelude
  import opened Bytes
  import opened Selection

  const SIGNATURE: bytes := [0x89, 0x50, 0x4E, 0x47, 0x0D, 0x0A, 0x1A, 0x0A]
  const IEND: bytes := [73, 69, 78, 68]
  const IHDR: bytes := [73, 72, 68, 82]
  const EXIF: bytes := [101, 88, 73, 102] // eXIf

  /** tEXt, zTXt, iTXt, eXIf and tIME describe rather than depict. */
  const DROPPED: set<bytes> := {[116, 69, 88, 116], [122, 84, 88, 116], [105, 84, 88, 116], EXIF, [116, 73, 77, 69]}

  datatype Chunk = Chunk(kind: bytes, body: bytes, crc: bytes)

  function LooksLike(d: bytes): bool { StartsWith(d, SIGNATURE) }

  // ---- the grammar (section 5.3 of the PNG specification) ----------------------------------------

  predicate ChunkOk(c: Chunk) { |c.kind| == 4 && |c.crc| == 4 && |c.body| < U32 }

  /** A chunk list as it lies in a file: it ends with the first IEND. */
  predicate Complete(cs: seq<Chunk>) {
    && cs != [] && ChunkOk(cs[0])
    && (if cs[0].kind == IEND then |cs| == 1 else Complete(cs[1..]))
  }

  function PrintChunk(c: Chunk): bytes { Put32(Big, |c.body|) + c.kind + c.body + c.crc }

  function Print(cs: seq<Chunk>): bytes { if cs == [] then [] else PrintChunk(cs[0]) + Print(cs[1..]) }

  /** The size a chunk declares, with its length, type and checksum fields. */
  function Extent(d: bytes): (n: nat)
    requires |d| >= 8
    ensures n >= 12
  {
    12 + Get32(Big, d[..4])
  }

  function Head(d: bytes): Chunk
    requires |d| >= 8 && Extent(d) <= |d|
  {
    Chunk(d[4..8], d[8..Extent(d) - 4], d[Extent(d) - 4..Extent(d)])
  }

  /** The chunks up to IEND, None when they run past the data or IEND is missing. */
  function Parse(d: bytes): Option<seq<Chunk>>
    decreases |d|
  {
    if |d| < 8 || Extent(d) > |d| then None
    else if d[4..8] == IEND then Some([Head(d)])
    else Cons(Head(d), Parse(d[Extent(d)..]))
  }

  function Cons(c: Chunk, rest: Option<seq<Chunk>>): Option<seq<Chunk>> {
    if rest.None? then None else Some([c] + rest.value)
  }

  lemma HeadOfPrint(c: Chunk, rest: bytes)
    requires ChunkOk(c)
    ensures var d := PrintChunk(c) + rest;
            |d| >= 12 && Extent(d) == |PrintChunk(c)| && Head(d) == c && d[4..8] == c.kind && d[Extent(d)..] == rest
  {
    hide Put32, Get32;
    var d, n := PrintChunk(c) + rest, |c.body|;
    Get32Put32(Big, n);
    assert d[..4] == Put32(Big, n);
    assert d[4..8] == c.kind && d[8..8 + n] == c.body && d[8 + n..12 + n] == c.crc && d[12 + n..] == rest;
  }

  lemma PrintOfHead(d: bytes)
    requires |d| >= 8 && Extent(d) <= |d|
    ensures ChunkOk(Head(d)) && PrintChunk(Head(d)) == d[..Extent(d)]
  {
    hide Put32, Get32;
    Put32Get32(Big, d[..4]);
    assert d[..Extent(d)] == d[..4] + d[4..8] + d[8..Extent(d) - 4] + d[Extent(d) - 4..Extent(d)];
  }

  /** Parsing reads back exactly what was printed, whatever follows IEND. */
  lemma {:induction false} ParsePrint(cs: seq<Chunk>, rest: bytes)
    requires Complete(cs)
    ensures Parse(Print(cs) + rest) == Some(cs)
  {
    hide PrintChunk, Extent, Head;
    var tail := Print(cs[1..]) + rest;
    assert Print(cs) + rest == PrintChunk(cs[0]) + tail;
    HeadOfPrint(cs[0], tail);
    assert [cs[0]] + cs[1..] == cs;
    if |cs| > 1 {
      ParsePrint(cs[1..], rest);
    } else {
      assert cs == [cs[0]];
    }
  }

  /** What is parsed is a complete chunk list, printed at the front of the data. */
  lemma {:induction false} ParseIsPrint(d: bytes)
    requires Parse(d).Some?
    ensures var cs := Parse(d).value; Complete(cs) && StartsWith(d, Print(cs))
    decreases |d|
  {
    hide PrintChunk, Extent;
    PrintOfHead(d);
    var tail := d[Extent(d)..];
    if d[4..8] == IEND {
      assert Print([Head(d)]) == PrintChunk(Head(d));
    } else {
      ParseIsPrint(tail);
      var cs := Parse(tail).value;
      assert ([Head(d)] + cs)[1..] == cs;
      assert d[..Extent(d) + |Print(cs)|] == d[..Extent(d)] + tail[..|Print(cs)|];
    }
  }

  // ---- stripping --------------------------------------------------------------------------------------

  function Keep(cs: seq<Chunk>): seq<Chunk> {
    if cs == [] then [] else (if cs[0].kind in DROPPED then [] else [cs[0]]) + Keep(cs[1..])
  }

  /** The result as a function of the parsed chunks. */
  function Stripped(d: bytes): Option<bytes> {
    if !LooksLike(d) || Parse(d[8..]).None? then None
    else Some(SIGNATURE + Print(Keep(Parse(d[8..]).value)))
  }

  lemma {:induction false} KeepAppend(cs: seq<Chunk>, c: Chunk)
    ensures Keep(cs + [c]) == Keep(cs) + (if c.kind in DROPPED then [] else [c])
  {
    if cs != [] {
      assert (cs + [c])[1..] == cs[1..] + [c];
      KeepAppend(cs[1..], c);
    } else {
      assert (cs + [c])[1..] == [];
    }
  }

  lemma {:induction false} PrintAppend(cs: seq<Chunk>, c: Chunk)
    ensures Print(cs + [c]) == Print(cs) + PrintChunk(c)
  {
    if cs != [] {
      assert (cs + [c])[1..] == cs[1..] + [c];
      PrintAppend(cs[1..], c);
    } else {
      assert (cs + [c])[1..] == [];
    }
  }

  function Prepend(done: seq<Chunk>, rest: Option<seq<Chunk>>): Option<seq<Chunk>> {
    if rest.None? then None else Some(done + rest.value)
  }

  /** One turn of the loop of stripPNG: the chunk at the cursor joins the ones already handled. */
  lemma StripOne(data: bytes, i: nat, done: seq<Chunk>)
    requires i + 8 <= |data| && Extent(data[i..]) <= |data| - i
    ensures var c, end := Head(data[i..]), i + Extent(data[i..]);
            && c.kind == data[i + 4..i + 8]
            && Print(Keep(done + [c])) == Print(Keep(done)) + (if c.kind in DROPPED then [] else data[i..end])
            && (Prepend(done, Parse(data[i..])) ==
                if c.kind == IEND then Some(done + [c]) else Prepend(done + [c], Parse(data[end..])))
  {
    hide Put32, Get32, PrintChunk, Extent, Print, Keep, DROPPED;
    var d := data[i..];
    var c, end := Head(d), i + Extent(d);
    PrintOfHead(d);
    assert data[i..end] == d[..Extent(d)] && data[end..] == d[Extent(d)..] && data[i + 4..i + 8] == d[4..8];
    KeepAppend(done, c);
    PrintAppend(Keep(done), c);
    assert Keep(done) + [] == Keep(done);
    if Parse(data[end..]).Some? {
      assert done + ([c] + Parse(data[end..]).value) == done + [c] + Parse(data[end..]).value;
    }
  }

  method Strip(data: bytes) returns (r: Option<bytes>)
    ensures r == Stripped(data)
  {
    hide Put32, Get32, Print, Keep, Parse, DROPPED;
    if !LooksLike(data) {
      return None;
    }
    var out := SIGNATURE;
    var i := |SIGNATURE|;
    ghost var done: seq<Chunk> := [];
    StripStart(data);
    while i < |data|
      invariant 8 <= i <= |data|
      invariant out == SIGNATURE + Print(Keep(done))
      invariant Parse(data[8..]) == Prepend(done, Parse(data[i..]))
    {
      ParseFails(data[i..]);
      if i + 8 > |data| {
        return None;
      }
      assert data[i..i + 4] == data[i..][..4];
      var length := Get32(Big, data[i..i + 4]);
      if i + 12 + length > |data| {
        return None;
      }
      StripOne(data, i, done);
      var kind, end := data[i + 4..i + 8], i + 12 + length;
      ghost var kept := Print(Keep(done));
      if kind !in DROPPED {
        out := out + data[i..end];
        Assoc(SIGNATURE, kept, data[i..end]);
      }
      done := done + [Head(data[i..])];
      i := end;
      assert kept + [] == kept;
      if kind == IEND {
        assert Parse(data[8..]) == Some(done);
        assert out == SIGNATURE + Print(Keep(done));
        return Some(out);
      }
    }
    ParseFails(data[i..]);
    return None;
  }

  lemma StripStart(data: bytes)
    requires |data| >= 8
    ensures Print(Keep([])) == [] && Parse(data[8..]) == Prepend([], Parse(data[8..]))
  {
    assert Parse(data[8..]).Some? ==> [] + Parse(data[8..]).value == Parse(data[8..]).value;
  }

  lemma ParseFails(d: bytes)
    ensures |d| < 8 || Extent(d) > |d| ==> Parse(d).None?
  {
  }

  lemma {:induction false} KeepComplete(cs: seq<Chunk>)
    requires Complete(cs)
    ensures Complete(Keep(cs)) && Keep(Keep(cs)) == Keep(cs)
    ensures forall c :: c in Keep(cs) ==> c in cs && c.kind !in DROPPED
  {
    var rest := cs[1..];
    if |cs| > 1 {
      KeepComplete(rest);
      if cs[0].kind !in DROPPED {
        assert Keep(cs)[1..] == Keep(rest);
      } else {
        assert Keep(cs) == Keep(rest);
      }
    } else {
      assert Keep(cs) == cs && Keep(rest) == [];
    }
  }

  /** The output's chunks are exactly the kept chunks of the input, with nothing after IEND, and
      stripping it again changes nothing. */
  lemma StripKeepsThePicture(d: bytes)
    requires Stripped(d).Some?
    ensures var o, kept := Stripped(d).value, Keep(Parse(d[8..]).value);
            && LooksLike(o)
            && Parse(o[8..]) == Some(kept)
            && o == SIGNATURE + Print(kept)
            && (forall c :: c in kept ==> c.kind !in DROPPED)
            && Stripped(o) == Some(o)
  {
    var o, kept := Stripped(d).value, Keep(Parse(d[8..]).value);
    ParseIsPrint(d[8..]);
    KeepComplete(Parse(d[8..]).value);
    ParsePrint(kept, []);
    assert o[8..] == Print(kept) + [];
    assert o[..8] == SIGNATURE;
  }

  // ---- what stays, by chunk type -----------------------------------------------------------------------

  /** Every chunk but tEXt, zTXt, iTXt, eXIf and tIME: in particular every critical one, whose type
      begins with a capital letter. */
  predicate IsPicture(c: Chunk) {
    && c.kind != [0x74, 0x45, 0x58, 0x74] && c.kind != [0x7A, 0x54, 0x58, 0x74] && c.kind != [0x69, 0x54, 0x58, 0x74]
    && c.kind != [0x65, 0x58, 0x49, 0x66] && c.kind != [0x74, 0x49, 0x4D, 0x45]
  }

  lemma CriticalStays(c: Chunk)
    requires |c.kind| == 4 && 65 <= c.kind[0] <= 90
    ensures IsPicture(c)
  {
    forall k: bytes | |k| == 4 && k[0] > 90
      ensures c.kind != k
    {
    }
  }

  lemma PictureIsKept(c: Chunk)
    ensures c.kind !in DROPPED <==> IsPicture(c)
  {
  }

  lemma {:induction false} KeepIsPicture(cs: seq<Chunk>) returns (at: seq<nat>)
    ensures Picks(cs, at, Keep(cs), IsPicture)
  {
    hide IsPicture, DROPPED, Picks;
    at := [];
    if cs == [] {
      NoneToPick(IsPicture);
    } else {
      var before, c := cs[..|cs| - 1], cs[|cs| - 1];
      assert cs == before + [c];
      at := KeepIsPicture(before);
      KeepAppend(before, c);
      PictureIsKept(c);
      OneMore(before, c, at, Keep(before), IsPicture);
      if IsPicture(c) {
        at := at + [|before|];
      } else {
        assert Keep(before) + [] == Keep(before);
      }
    }
  }

  /** For every image that is taken: the output is the signature and, byte for byte and in order, the
      chunks that are part of the picture. */
  lemma ThePictureStays(d: bytes) returns (at: seq<nat>, ys: seq<Chunk>)
    requires Stripped(d).Some?
    ensures Picks(Parse(d[8..]).value, at, ys, IsPicture)
    ensures Stripped(d).value == [0x89, 0x50, 0x4E, 0x47, 0x0D, 0x0A, 0x1A, 0x0A] + Print(ys)
    ensures forall c :: c in Parse(d[8..]).value && c.kind != [] && 65 <= c.kind[0] <= 90 ==> c in ys
  {
    hide Parse, Print, Keep, IsPicture;
    var cs := Parse(d[8..]).value;
    ys := Keep(cs);
    at := KeepIsPicture(cs);
    ParseIsPrint(d[8..]);
    KindsAreFour(cs);
    forall c | c in cs && c.kind != [] && 65 <= c.kind[0] <= 90
      ensures c in ys
    {
      CriticalStays(c);
      var i :| 0 <= i < |cs| && cs[i] == c;
      var j :| 0 <= j < |at| && at[j] == i;
      assert ys[j] == c;
    }
  }

  lemma {:induction false} KindsAreFour(cs: seq<Chunk>)
    requires Complete(cs)
    ensures forall c :: c in cs ==> |c.kind| == 4
  {
    if |cs| > 1 {
      KindsAreFour(cs[1..]);
    }
  }
}
