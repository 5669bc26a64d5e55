/** stripJPEG of internal/metadata/strip.go: segments are dropped by an allow-list, each
    entropy-coded scan is copied as it is, and everything after the end of image is left behind. */
module Jpeg {
  import opened Prelude
  import opened Bytes
  import opened Selection

  const SOI: byte := 0xD8
  const EOI: byte := 0xD9
  const SOS: byte := 0xDA
  const COM: byte := 0xFE
  const TEM: byte := 0x01
  const APP1: byte := 0xE1

  const JFIF: bytes := [74, 70, 73, 70, 0]
  const ICC_PROFILE: bytes := [73, 67, 67, 95, 80, 82, 79, 70, 73, 76, 69, 0]
  const ADOBE: bytes := [65, 100, 111, 98, 101]

  const START: bytes := [0xFF, SOI]
  const END: bytes := [0xFF, EOI]

  predicate LooksLike(d: bytes) { |d| >= 2 && d[0] == 0xFF && d[1] == SOI }
  predicate Restart(m: byte) { 0xD0 <= m <= 0xD7 }

  /** keepJPEGSegment. */
  predicate KeepSegment(marker: byte, payload: bytes) {
    if marker == COM then false
    else if marker < 0xE0 || marker > 0xEF then true
    else
      || (marker == 0xE0 && StartsWith(payload, JFIF))
      || (marker == 0xE2 && StartsWith(payload, ICC_PROFILE))
      || (marker == 0xEE && StartsWith(payload, ADOBE))
  }

  // ---- the grammar (sections B.1.1.2 to B.1.1.5 of ITU-T T.81) ---------------------------------------

  /** What may stand in segment position: a marker alone, a segment with its length, or the header
      of a scan with the entropy-coded data behind it. */
  datatype Item =
    | Standalone(marker: byte)
    | Segment(marker: byte, payload: bytes)
    | Scan(payload: bytes, data: bytes)

  /** The length of the run of 0xFF at the front of d. */
  function Fill(d: bytes): (n: nat)
    ensures n <= |d|
    ensures n < |d| ==> d[n] != 0xFF
    ensures forall i :: 0 <= i < n ==> d[i] == 0xFF
  {
    if d == [] || d[0] != 0xFF then 0 else 1 + Fill(d[1..])
  }

  /** How many bytes at the front of d are scan data for sure: one that is not 0xFF, or a run of fill
      bytes with the stuffed zero or restart marker behind it. Zero where a marker begins. */
  function ScanSkip(d: bytes): (n: nat)
    requires d != []
    ensures n <= |d|
  {
    if d[0] != 0xFF then 1
    else if Fill(d) < |d| && (d[Fill(d)] == 0 || Restart(d[Fill(d)])) then Fill(d) + 1
    else 0
  }

  /** Where the scan at the front of d ends, and whether the data ended first. */
  function ScanEnd(d: bytes): (r: (nat, bool))
    ensures r.0 <= |d|
    decreases |d|
  {
    if d == [] then (0, true)
    else if ScanSkip(d) > 0 then Later(ScanSkip(d), ScanEnd(d[ScanSkip(d)..]))
    else (0, Fill(d) == |d|)
  }

  function Later(n: nat, r: (nat, bool)): (nat, bool) { (n + r.0, r.1) }

  /** The items up to the end of image; a scan that runs off the end of the data is the last.
      None when the data is not a whole image. */
  function Parse(d: bytes): Option<seq<Item>>
    decreases |d|
  {
    var n := Fill(d);
    if n == 0 || n == |d| then None
    else
      var marker, r := d[n], d[n + 1..];
      if marker == EOI then Some([])
      else if marker == SOI then None
      else if Restart(marker) || marker == TEM then Prepend([Standalone(marker)], Parse(r))
      else if |r| < 2 || Get16(Big, r[..2]) < 2 || Get16(Big, r[..2]) > |r| then None
      else
        var length := Get16(Big, r[..2]);
        if marker != SOS then Prepend([Segment(marker, r[2..length])], Parse(r[length..]))
        else
          var (end, eof) := ScanEnd(r[length..]);
          var scan := Scan(r[2..length], r[length..][..end]);
          if eof then Some([scan]) else Prepend([scan], Parse(r[length + end..]))
  }

  function Prepend(done: seq<Item>, rest: Option<seq<Item>>): Option<seq<Item>> {
    if rest.None? then None else Some(done + rest.value)
  }

  function PrintItem(x: Item): bytes {
    match x
    case Standalone(m) => [0xFF, m]
    case Segment(m, p) => [0xFF, m] + Put16(Big, |p| + 2) + p
    case Scan(p, data) => [0xFF, SOS] + Put16(Big, |p| + 2) + p + data
  }

  function Print(xs: seq<Item>): bytes { if xs == [] then [] else PrintItem(xs[0]) + Print(xs[1..]) }

  predicate Kept(x: Item) { x.Segment? ==> KeepSegment(x.marker, x.payload) }

  function Keep(xs: seq<Item>): seq<Item> {
    if xs == [] then [] else (if Kept(xs[0]) then [xs[0]] else []) + Keep(xs[1..])
  }

  function Stripped(d: bytes): Option<bytes> {
    if !LooksLike(d) || Parse(d[2..]).None? then None
    else Some(START + Print(Keep(Parse(d[2..]).value)) + END)
  }

  // ---- items as the parser makes them ---------------------------------------------------------------------

  predicate ItemOk(x: Item) {
    match x
    case Standalone(m) => Restart(m) || m == TEM
    case Segment(m, p) => m != 0xFF && m != EOI && m != SOI && m != SOS && m != TEM && !Restart(m) && |p| + 2 < U16
    case Scan(p, data) => |p| + 2 < U16 && ScanEnd(data) == (|data|, true)
  }

  predicate AllOk(xs: seq<Item>) { xs == [] || (ItemOk(xs[0]) && AllOk(xs[1..])) }

  /** An item a scan would swallow if it came right after it: a restart marker, or a segment whose
      marker is the stuffed zero. */
  predicate Swallowed(x: Item) { (x.Standalone? && Restart(x.marker)) || (x.Segment? && x.marker == 0) }

  /** No scan is followed at once by such an item. */
  predicate Firm(xs: seq<Item>) {
    xs == [] || (Firm(xs[1..]) && (xs[0].Scan? && |xs| > 1 ==> !Swallowed(xs[1])))
  }

  lemma FillOne(m: byte, rest: bytes)
    requires m != 0xFF
    ensures Fill([0xFF, m] + rest) == 1
  {
    var d := [0xFF, m] + rest;
    assert d[1..] == [m] + rest;
    assert Fill(d[1..]) == 0;
  }

  lemma {:induction false} ScanDataEnds(d: bytes)
    ensures var e := ScanEnd(d).0; ScanEnd(d[..e]) == (e, true)
    decreases |d|
  {
    hide ScanSkip;
    if d != [] && ScanSkip(d) > 0 {
      var n := ScanSkip(d);
      ScanDataEnds(d[n..]);
      var e := ScanEnd(d[n..]).0;
      SkipPrefix(d, n + e);
      assert d[..n + e][n..] == d[n..][..e];
    }
  }

  lemma SkipPrefix(d: bytes, k: nat)
    requires d != [] && 0 < ScanSkip(d) <= k <= |d|
    ensures ScanSkip(d[..k]) == ScanSkip(d)
  {
    if d[0] == 0xFF {
      FillPrefix(d, k);
    }
  }

  lemma SkipExtended(d: bytes, tail: bytes)
    requires d != [] && 0 < ScanSkip(d)
    ensures ScanSkip(d + tail) == ScanSkip(d)
  {
    if d[0] == 0xFF {
      FillExtended(d, tail);
    }
  }

  lemma {:induction false} FillPrefix(d: bytes, k: nat)
    requires Fill(d) < k <= |d|
    ensures Fill(d[..k]) == Fill(d)
  {
    if d[0] == 0xFF {
      FillPrefix(d[1..], k - 1);
      assert d[..k][1..] == d[1..][..k - 1];
    }
  }

  lemma {:induction false} FillExtended(d: bytes, tail: bytes)
    requires Fill(d) < |d|
    ensures Fill(d + tail) == Fill(d)
  {
    if d[0] == 0xFF {
      FillExtended(d[1..], tail);
      assert (d + tail)[1..] == d[1..] + tail;
    }
  }

  /** A whole scan followed by more bytes goes on into them. */
  lemma {:induction false} ScanExtended(data: bytes, tail: bytes)
    requires ScanEnd(data) == (|data|, true)
    ensures ScanEnd(data + tail) == Later(|data|, ScanEnd(tail))
    decreases |data|
  {
    hide ScanSkip;
    if data == [] {
      assert data + tail == tail;
    } else {
      var n := ScanSkip(data);
      SkipExtended(data, tail);
      ScanExtended(data[n..], tail);
      assert (data + tail)[n..] == data[n..] + tail;
    }
  }

  lemma ScanStops(m: byte, rest: bytes)
    requires m != 0xFF && m != 0 && !Restart(m)
    ensures ScanEnd([0xFF, m] + rest) == (0, false)
  {
    FillOne(m, rest);
  }

  lemma ScanSwallows(m: byte, rest: bytes)
    requires m == 0 || Restart(m)
    ensures ScanEnd([0xFF, m] + rest) == Later(2, ScanEnd(rest))
  {
    FillOne(m, rest);
    assert ([0xFF, m] + rest)[2..] == rest;
  }

  // ---- parsing what is printed ---------------------------------------------------------------------------

  /** What one turn of the loop reads, by cases of the marker. */
  lemma ParseCases(d: bytes)
    ensures !(0 < Fill(d) < |d|) ==> Parse(d).None?
    ensures 0 < Fill(d) < |d| ==>
              var m, r := d[Fill(d)], d[Fill(d) + 1..];
              && (m == EOI ==> Parse(d) == Some([]))
              && (m == SOI ==> Parse(d).None?)
              && (Restart(m) || m == TEM ==> Parse(d) == Prepend([Standalone(m)], Parse(r)))
              && (m != EOI && m != SOI && !Restart(m) && m != TEM ==>
                    if |r| < 2 || Get16(Big, r[..2]) < 2 || Get16(Big, r[..2]) > |r| then Parse(d).None?
                    else Parse(d) == ParseFramed(m, r))
  {
    hide ScanEnd, Get16;
  }

  function ParseFramed(m: byte, r: bytes): Option<seq<Item>>
    requires |r| >= 2 && 2 <= Get16(Big, r[..2]) <= |r|
  {
    var length := Get16(Big, r[..2]);
    if m != SOS then Prepend([Segment(m, r[2..length])], Parse(r[length..]))
    else
      var (end, eof) := ScanEnd(r[length..]);
      var scan := Scan(r[2..length], r[length..][..end]);
      if eof then Some([scan]) else Prepend([scan], Parse(r[length + end..]))
  }

  lemma ParseStandalone(m: byte, rest: bytes)
    requires Restart(m) || m == TEM
    ensures Parse([0xFF, m] + rest) == Prepend([Standalone(m)], Parse(rest))
  {
    FillOne(m, rest);
    assert ([0xFF, m] + rest)[2..] == rest;
  }

  lemma ParseEnd(rest: bytes)
    ensures Parse(END + rest) == Some([])
  {
    FillOne(EOI, rest);
  }

  /** The common part of a segment and a scan header: the length field frames the payload. */
  lemma LengthFrames(p: bytes, rest: bytes)
    requires |p| + 2 < U16
    ensures var r := Put16(Big, |p| + 2) + p + rest;
            |r| >= 2 && Get16(Big, r[..2]) == |p| + 2 <= |r| && r[2..|p| + 2] == p && r[|p| + 2..] == rest
  {
    hide Get16, Put16;
    Get16Put16(Big, |p| + 2);
    var r := Put16(Big, |p| + 2) + p + rest;
    assert r[..2] == Put16(Big, |p| + 2);
  }

  lemma ParseSegment(m: byte, p: bytes, rest: bytes)
    requires ItemOk(Segment(m, p))
    ensures Parse(PrintItem(Segment(m, p)) + rest) == Prepend([Segment(m, p)], Parse(rest))
  {
    hide Get16, Put16;
    var r := Put16(Big, |p| + 2) + p + rest;
    var d := [0xFF, m] + r;
    assert PrintItem(Segment(m, p)) + rest == d;
    FillOne(m, r);
    assert d[2..] == r;
    LengthFrames(p, rest);
  }

  lemma ParseScan(p: bytes, data: bytes, rest: bytes)
    requires ItemOk(Scan(p, data))
    ensures var (end, eof) := ScanEnd(data + rest);
            Parse(PrintItem(Scan(p, data)) + rest) ==
            if eof then Some([Scan(p, (data + rest)[..end])])
            else Prepend([Scan(p, (data + rest)[..end])], Parse((data + rest)[end..]))
  {
    hide Get16, Put16, ScanEnd, Fill, Prepend, Parse;
    var tail := data + rest;
    var r := Put16(Big, |p| + 2) + p + tail;
    var d := [0xFF, SOS] + r;
    assert PrintItem(Scan(p, data)) + rest == d;
    FillOne(SOS, r);
    assert d[2..] == r;
    LengthFrames(p, tail);
    ParseCases(d);
    var end := ScanEnd(tail).0;
    assert r[|p| + 2 + end..] == tail[end..];
  }

  /** What follows an item in a printed list starts with a marker. */
  function NextMarker(xs: seq<Item>): byte {
    if xs == [] then EOI else match xs[0] case Standalone(m) => m case Segment(m, _) => m case Scan(_, _) => SOS
  }

  lemma PrintStarts(xs: seq<Item>, rest: bytes)
    requires AllOk(xs)
    ensures var d := Print(xs) + END + rest;
            |d| >= 2 && d == [0xFF, NextMarker(xs)] + d[2..] && NextMarker(xs) != 0xFF
    ensures xs != [] && Swallowed(xs[0]) <==> NextMarker(xs) == 0 || Restart(NextMarker(xs))
  {
    hide PrintItem;
    if xs != [] {
      ItemStarts(xs[0]);
      var d := Print(xs) + END + rest;
      assert d == PrintItem(xs[0]) + (Print(xs[1..]) + END + rest);
      assert d[..2] == PrintItem(xs[0])[..2];
    } else {
      assert Print(xs) + END + rest == END + rest;
    }
  }

  lemma ItemStarts(x: Item)
    requires ItemOk(x)
    ensures |PrintItem(x)| >= 2 && PrintItem(x)[..2] == [0xFF, NextMarker([x])] && NextMarker([x]) != 0xFF
    ensures Swallowed(x) <==> NextMarker([x]) == 0 || Restart(NextMarker([x]))
  {
    hide ScanEnd, Put16;
  }

  /** Reading back a printed list gives the list if and only if no scan in it is followed at once
      by a restart marker or a zero marker. */
  lemma {:induction false} ParsePrint(xs: seq<Item>, rest: bytes)
    requires AllOk(xs)
    ensures Parse(Print(xs) + END + rest) == Some(xs) <==> Firm(xs)
  {
    hide Parse, PrintItem, ScanEnd;
    if xs == [] {
      ParseEnd(rest);
      assert Print(xs) + END + rest == END + rest;
    } else {
      var tail := Print(xs[1..]) + END + rest;
      assert Print(xs) + END + rest == PrintItem(xs[0]) + tail;
      ParsePrint(xs[1..], rest);
      match xs[0] {
        case Standalone(m) =>
          assert PrintItem(xs[0]) == [0xFF, m] by { PrintStandalone(xs[0]); }
          ParseStandalone(m, tail);
          PrependInjective(xs[0], Parse(tail), xs);
        case Segment(m, p) =>
          ParseSegment(m, p, tail);
          PrependInjective(xs[0], Parse(tail), xs);
        case Scan(p, data) =>
          ParseScan(p, data, tail);
          ScanExtended(data, tail);
          PrintStarts(xs[1..], rest);
          ScanThenMarker(p, data, tail, xs);
      }
    }
  }

  lemma PrintStandalone(x: Item)
    requires x.Standalone?
    ensures PrintItem(x) == [0xFF, x.marker]
  {
  }

  lemma PrependInjective(x: Item, rest: Option<seq<Item>>, xs: seq<Item>)
    requires xs != [] && xs[0] == x
    ensures Prepend([x], rest) == Some(xs) <==> rest == Some(xs[1..])
  {
    assert xs == [x] + xs[1..];
    if rest.Some? {
      assert ([x] + rest.value)[1..] == rest.value;
    }
  }

  lemma ScanThenMarker(p: bytes, data: bytes, tail: bytes, xs: seq<Item>)
    requires xs != [] && xs[0] == Scan(p, data) && |tail| >= 2
    requires tail == [0xFF, NextMarker(xs[1..])] + tail[2..] && NextMarker(xs[1..]) != 0xFF
    requires ScanEnd(data + tail) == Later(|data|, ScanEnd(tail))
    requires Parse(PrintItem(xs[0]) + tail) ==
             (var (end, eof) := ScanEnd(data + tail);
              if eof then Some([Scan(p, (data + tail)[..end])])
              else Prepend([Scan(p, (data + tail)[..end])], Parse((data + tail)[end..])))
    ensures var m := NextMarker(xs[1..]);
            Parse(PrintItem(xs[0]) + tail) == Some(xs) <==>
            !(m == 0 || Restart(m)) && Parse(tail) == Some(xs[1..])
  {
    hide Parse, PrintItem, ScanEnd;
    var m, d := NextMarker(xs[1..]), data + tail;
    var end := ScanEnd(d).0;
    if m == 0 || Restart(m) {
      ScanSwallows(m, tail[2..]);
      assert end >= |data| + 2 && |d[..end]| != |data|;
      assert Scan(p, d[..end]) != xs[0];
    } else {
      ScanStops(m, tail[2..]);
      assert d[..end] == data && d[end..] == tail;
      PrependInjective(xs[0], Parse(tail), xs);
    }
  }

  // ---- what the parser returns ---------------------------------------------------------------------------

  lemma ParseOneOk(d: bytes)
    requires Parse(d).Some? && Parse(d).value != []
    ensures ItemOk(Parse(d).value[0])
  {
    hide ScanEnd;
    var n := Fill(d);
    var r := d[n + 1..];
    if d[n] == SOS {
      ScanDataEnds(r[Get16(Big, r[..2])..]);
    }
  }

  lemma {:induction false} ParseOk(d: bytes)
    requires Parse(d).Some?
    ensures AllOk(Parse(d).value)
    decreases |d|
  {
    hide ScanEnd, ItemOk;
    var xs := Parse(d).value;
    if xs != [] {
      ParseOneOk(d);
      if |xs| > 1 {
        var rest := Rest(d);
        ParseOk(rest);
        RestIs(d);
      }
    }
  }

  /** The data behind the first item. */
  function Rest(d: bytes): (r: bytes)
    requires Parse(d).Some? && |Parse(d).value| > 1
    ensures |r| < |d|
  {
    var n := Fill(d);
    var r := d[n + 1..];
    if Restart(d[n]) || d[n] == TEM then r
    else
      var length := Get16(Big, r[..2]);
      if d[n] != SOS then r[length..] else r[length + ScanEnd(r[length..]).0..]
  }

  lemma RestIs(d: bytes)
    requires Parse(d).Some? && |Parse(d).value| > 1
    ensures Parse(Rest(d)) == Some(Parse(d).value[1..])
  {
    hide ScanEnd, Get16;
  }

  lemma {:induction false} KeepOk(xs: seq<Item>)
    requires AllOk(xs)
    ensures AllOk(Keep(xs)) && Keep(Keep(xs)) == Keep(xs)
    ensures forall x :: x in Keep(xs) ==> Kept(x)
  {
    hide ItemOk, Kept;
    if xs != [] {
      KeepOk(xs[1..]);
      if Kept(xs[0]) {
        assert ([xs[0]] + Keep(xs[1..]))[1..] == Keep(xs[1..]);
      } else {
        assert Keep(xs) == Keep(xs[1..]);
      }
    }
  }

  /** Re-parsing the output gives exactly the kept items of the input, each scan byte for byte, one
      end of image and nothing after it, if and only if no kept scan is followed at once by a
      restart marker or a zero marker. A scan that ran off the end of the data is included. */
  lemma StripKeepsThePicture(d: bytes)
    requires Stripped(d).Some?
    ensures var o, kept := Stripped(d).value, Keep(Parse(d[2..]).value);
            && LooksLike(o) && o[2..] == Print(kept) + END
            && (forall x :: x in kept ==> Kept(x))
            && (Parse(o[2..]) == Some(kept) <==> Firm(kept))
  {
    hide Parse, Print, Keep, AllOk, Firm, Kept;
    var kept := Keep(Parse(d[2..]).value);
    ParseOk(d[2..]);
    KeepOk(Parse(d[2..]).value);
    ParsePrint(kept, []);
    assert Stripped(d).value[2..] == Print(kept) + END;
    assert Print(kept) + END + [] == Print(kept) + END;
  }

  // ---- what stays, by marker number -----------------------------------------------------------------------

  /** What the picture is made of: markers alone, scans, and every segment that is neither an
      application segment nor a comment; and of the application segments APP0 with a JFIF header,
      APP2 with a colour profile and APP14 with the colour transform. */
  predicate IsPicture(x: Item) {
    match x
    case Standalone(_) => true
    case Scan(_, _) => true
    case Segment(m, p) =>
      || m <= 0xDF
      || (m == 0xE0 && |p| >= 5 && p[..5] == [74, 70, 73, 70, 0])
      || (m == 0xE2 && |p| >= 12 && p[..12] == [73, 67, 67, 95, 80, 82, 79, 70, 73, 76, 69, 0])
      || (m == 0xEE && |p| >= 5 && p[..5] == [65, 100, 111, 98, 101])
      || 0xF0 <= m <= 0xFD
  }

  lemma PictureIsKept(x: Item)
    requires ItemOk(x)
    ensures Kept(x) <==> IsPicture(x)
  {
    hide ScanEnd;
  }

  function OneKept(x: Item): seq<Item> { if Kept(x) then [x] else [] }

  lemma KeepFirst(xs: seq<Item>)
    requires xs != []
    ensures Keep(xs) == OneKept(xs[0]) + Keep(xs[1..])
  {
    hide Kept;
  }

  lemma ItemsAssoc(a: seq<Item>, b: seq<Item>, c: seq<Item>)
    ensures a + b + c == a + (b + c)
  {
  }

  lemma {:induction false} KeepLast(xs: seq<Item>, x: Item)
    ensures Keep(xs + [x]) == Keep(xs) + OneKept(x)
  {
    hide Keep, OneKept;
    if xs == [] {
      assert xs + [x] == [x] && [x][1..] == [];
      KeepFirst([x]);
      assert Keep([]) == [] by { KeepNothing(); }
      assert OneKept(x) + [] == [] + OneKept(x);
    } else {
      assert (xs + [x])[1..] == xs[1..] + [x];
      KeepFirst(xs);
      KeepFirst(xs + [x]);
      KeepLast(xs[1..], x);
      ItemsAssoc(OneKept(xs[0]), Keep(xs[1..]), OneKept(x));
    }
  }

  lemma KeepNothing()
    ensures Keep([]) == []
  {
  }

  lemma {:induction false} AllOkLast(xs: seq<Item>)
    requires AllOk(xs) && xs != []
    ensures AllOk(xs[..|xs| - 1]) && ItemOk(xs[|xs| - 1])
  {
    hide ItemOk;
    if |xs| > 1 {
      AllOkLast(xs[1..]);
      assert xs[..|xs| - 1][1..] == xs[1..][..|xs| - 2];
    }
  }

  lemma {:induction false} KeepIsPicture(xs: seq<Item>) returns (at: seq<nat>)
    requires AllOk(xs)
    ensures Picks(xs, at, Keep(xs), IsPicture)
  {
    hide Kept, IsPicture, ItemOk, Picks;
    at := [];
    if xs == [] {
      NoneToPick(IsPicture);
    } else {
      var before, x := xs[..|xs| - 1], xs[|xs| - 1];
      assert xs == before + [x];
      AllOkLast(xs);
      at := KeepIsPicture(before);
      KeepLast(before, x);
      PictureIsKept(x);
      OneMore(before, x, at, Keep(before), IsPicture);
      if IsPicture(x) {
        at := at + [|before|];
      } else {
        assert Keep(before) + [] == Keep(before);
      }
    }
  }

  /** For every image that is taken: the output is the start of image, byte for byte the items that
      are part of the picture, each of them and in their order, and the end of image. */
  lemma ThePictureStays(d: bytes) returns (at: seq<nat>, ys: seq<Item>)
    requires Stripped(d).Some?
    ensures Picks(Parse(d[2..]).value, at, ys, IsPicture)
    ensures Stripped(d).value == [0xFF, 0xD8] + Print(ys) + [0xFF, 0xD9]
  {
    hide Parse, Print, Keep, AllOk, Picks;
    ParseOk(d[2..]);
    ys := Keep(Parse(d[2..]).value);
    at := KeepIsPicture(Parse(d[2..]).value);
  }

  // ---- the items are the input ----------------------------------------------------------------------------

  predicate AllFill(d: bytes) { forall i :: 0 <= i < |d| ==> d[i] == 0xFF }

  /** The items, each behind any number of fill bytes, up to the end of image with anything behind
      it, or up to the end of the data when a scan runs off it. */
  ghost predicate Spells(d: bytes, xs: seq<Item>)
    decreases |xs|
  {
    if xs == [] then exists n: nat :: n + 2 <= |d| && AllFill(d[..n]) && d[n..n + 2] == [0xFF, 0xD9]
    else
      exists n: nat ::
        && n + |PrintItem(xs[0])| <= |d| && AllFill(d[..n])
        && d[n..n + |PrintItem(xs[0])|] == PrintItem(xs[0])
        && (Spells(d[n + |PrintItem(xs[0])|..], xs[1..])
            || (|xs| == 1 && xs[0].Scan? && AllFill(d[n + |PrintItem(xs[0])|..])))
  }

  /** The bytes of scan data in which no marker begins: what follows a fill run is a stuffed zero or a
      restart marker. */
  predicate NoMarker(data: bytes) {
    forall i :: 0 <= i < |data| - 1 && data[i] == 0xFF ==>
      data[i + 1] == 0xFF || data[i + 1] == 0 || 0xD0 <= data[i + 1] <= 0xD7
  }

  lemma FillIsFill(d: bytes, n: nat)
    requires n <= Fill(d)
    ensures AllFill(d[..n])
  {
  }

  lemma {:induction false} ScanRunsOff(d: bytes)
    requires ScanEnd(d).1
    ensures AllFill(d[ScanEnd(d).0..])
    decreases |d|
  {
    hide ScanSkip;
    if d != [] {
      if ScanSkip(d) > 0 {
        ScanRunsOff(d[ScanSkip(d)..]);
        assert d[ScanSkip(d)..][ScanEnd(d[ScanSkip(d)..]).0..] == d[ScanEnd(d).0..];
      } else {
        assert d[0..] == d && d[..|d|] == d;
        FillIsFill(d, |d|);
      }
    }
  }

  /** A scan that stops before the end of the data stops at a marker that is neither. */
  lemma {:induction false} ScanStopsAtMarker(d: bytes)
    requires !ScanEnd(d).1
    ensures var rest := d[ScanEnd(d).0..];
            0 < Fill(rest) < |rest| && rest[Fill(rest)] != 0 && !Restart(rest[Fill(rest)])
    decreases |d|
  {
    if ScanSkip(d) > 0 {
      ScanStopsAtMarker(d[ScanSkip(d)..]);
      assert d[ScanSkip(d)..][ScanEnd(d[ScanSkip(d)..]).0..] == d[ScanEnd(d).0..];
    } else {
      assert d[0..] == d;
    }
  }

  /** The front of scan data, and the data behind it. */
  lemma SkipHasNoMarker(d: bytes)
    requires d != [] && ScanSkip(d) > 0 && NoMarker(d[ScanSkip(d)..])
    ensures NoMarker(d)
  {
    var n := ScanSkip(d);
    forall i | 0 <= i < |d| - 1 && d[i] == 0xFF
      ensures d[i + 1] == 0xFF || d[i + 1] == 0 || 0xD0 <= d[i + 1] <= 0xD7
    {
      if i >= n {
        assert d[n..][i - n] == d[i] && d[n..][i - n + 1] == d[i + 1];
      }
    }
  }

  lemma {:induction false} WholeScanHasNoMarker(data: bytes)
    requires ScanEnd(data) == (|data|, true)
    ensures NoMarker(data)
    decreases |data|
  {
    if data != [] && ScanSkip(data) > 0 {
      WholeScanHasNoMarker(data[ScanSkip(data)..]);
      SkipHasNoMarker(data);
    }
  }

  /** What stands at the front of the input is the first item. */
  ghost predicate Leads(d: bytes, x: Item, rest: bytes) {
    exists n: nat ::
      && n + |PrintItem(x)| <= |d| && AllFill(d[..n])
      && d[n..n + |PrintItem(x)|] == PrintItem(x) && rest == d[n + |PrintItem(x)|..]
  }

  lemma ItemLeads(d: bytes, x: Item, n: nat, at: nat)
    requires n < at <= |d| && AllFill(d[..n]) && PrintItem(x) == d[n..at]
    ensures Leads(d, x, d[at..])
  {
    hide PrintItem, AllFill;
    assert n + |PrintItem(x)| == at;
  }

  /** The last fill byte, the marker and what comes with it. */
  lemma Front(d: bytes, k: nat, r: bytes, n: nat)
    requires 0 < k < |d| && d[k - 1] == 0xFF && r == d[k + 1..] && n <= |r|
    ensures [0xFF, d[k]] + r[..n] == d[k - 1..k + 1 + n] && r[n..] == d[k + 1 + n..]
  {
  }

  lemma LastFill(d: bytes)
    requires 0 < Fill(d) < |d|
    ensures d[Fill(d) - 1] == 0xFF && AllFill(d[..Fill(d) - 1])
  {
    FillIsFill(d, Fill(d) - 1);
  }

  lemma TwoParts(a: bytes, r: bytes, length: nat, end: nat)
    requires length + end <= |r|
    ensures a + r[..length] + r[length..][..end] == a + r[..length + end]
  {
    assert r[..length] + r[length..][..end] == r[..length + end];
    Assoc(a, r[..length], r[length..][..end]);
  }

  lemma FramedLeads(d: bytes, x: Item, r: bytes, n: nat)
    requires 0 < Fill(d) < |d| && r == d[Fill(d) + 1..] && n <= |r|
    requires PrintItem(x) == [0xFF, d[Fill(d)]] + r[..n]
    ensures Leads(d, x, r[n..])
  {
    hide Leads, PrintItem, Fill, AllFill;
    var k := Fill(d);
    LastFill(d);
    Front(d, k, r, n);
    ItemLeads(d, x, k - 1, k + 1 + n);
  }

  lemma PrependFirst(x: Item, rest: Option<seq<Item>>)
    ensures Prepend([x], rest).Some? ==>
              Prepend([x], rest).value != [] && Prepend([x], rest).value[0] == x && rest == Some(Prepend([x], rest).value[1..])
  {
    if rest.Some? {
      assert ([x] + rest.value)[1..] == rest.value;
    }
  }

  /** The input behind the first item, and what the parser makes of it. */
  ghost predicate First(d: bytes, xs: seq<Item>, rest: bytes)
    requires xs != []
  {
    && |rest| < |d| && Leads(d, xs[0], rest)
    && (Parse(rest) == Some(xs[1..]) || (|xs| == 1 && xs[0].Scan? && AllFill(rest)))
    && (xs[0].Scan? && |xs| > 1 ==>
          Parse(rest) == Some(xs[1..]) && 0 < Fill(rest) < |rest| && rest[Fill(rest)] != 0 && !Restart(rest[Fill(rest)]))
  }

  lemma FirstStandalone(d: bytes, m: byte, r: bytes, xs: seq<Item>)
    requires 0 < Fill(d) < |d| && m == d[Fill(d)] && r == d[Fill(d) + 1..]
    requires Some(xs) == Prepend([Standalone(m)], Parse(r)) && xs != []
    ensures First(d, xs, r)
  {
    hide Parse, Leads, Fill, PrintItem, Prepend;
    PrintStandalone(Standalone(m));
    assert [0xFF, m] == [0xFF, m] + r[..0] && r[0..] == r;
    FramedLeads(d, Standalone(m), r, 0);
    PrependFirst(Standalone(m), Parse(r));
  }

  lemma FirstSegment(d: bytes, m: byte, r: bytes, xs: seq<Item>)
    requires 0 < Fill(d) < |d| && m == d[Fill(d)] && r == d[Fill(d) + 1..]
    requires |r| >= 2 && 2 <= Get16(Big, r[..2]) <= |r|
    requires Some(xs) == Prepend([Segment(m, r[2..Get16(Big, r[..2])])], Parse(r[Get16(Big, r[..2])..])) && xs != []
    ensures First(d, xs, r[Get16(Big, r[..2])..])
  {
    hide Parse, Leads, Fill, PrintItem, Prepend, Get16;
    var n := Get16(Big, r[..2]);
    FramedPrint(m, r);
    FramedLeads(d, Segment(m, r[2..n]), r, n);
    PrependFirst(Segment(m, r[2..n]), Parse(r[n..]));
  }

  lemma ScanLeads(d: bytes, r: bytes, n: nat, end: nat)
    requires 0 < Fill(d) < |d| && SOS == d[Fill(d)] && r == d[Fill(d) + 1..]
    requires |r| >= 2 && n == Get16(Big, r[..2]) && 2 <= n <= |r| && end <= |r| - n
    ensures Leads(d, Scan(r[2..n], r[n..][..end]), r[n + end..])
  {
    hide Leads, Fill, PrintItem, Get16;
    FramedScanPrint(r, r[n..][..end]);
    TwoParts([0xFF, SOS], r, n, end);
    FramedLeads(d, Scan(r[2..n], r[n..][..end]), r, n + end);
  }

  lemma BehindScan(r: bytes, n: nat, end: nat, eof: bool)
    requires n <= |r| && (end, eof) == ScanEnd(r[n..])
    ensures var rest := r[n + end..];
            if eof then AllFill(rest) else 0 < Fill(rest) < |rest| && rest[Fill(rest)] != 0 && !Restart(rest[Fill(rest)])
  {
    hide ScanEnd, Fill, AllFill;
    assert r[n..][end..] == r[n + end..];
    if eof {
      ScanRunsOff(r[n..]);
    } else {
      ScanStopsAtMarker(r[n..]);
    }
  }

  lemma FirstScan(d: bytes, r: bytes, n: nat, end: nat, eof: bool, xs: seq<Item>)
    requires 0 < Fill(d) < |d| && SOS == d[Fill(d)] && r == d[Fill(d) + 1..]
    requires |r| >= 2 && n == Get16(Big, r[..2]) && 2 <= n <= |r| && (end, eof) == ScanEnd(r[n..])
    requires xs == [Scan(r[2..n], r[n..][..end])] || !eof
    requires !eof ==> Some(xs) == Prepend([Scan(r[2..n], r[n..][..end])], Parse(r[n + end..])) && xs != []
    ensures First(d, xs, r[n + end..])
  {
    hide Parse, Leads, Fill, PrintItem, Prepend, Get16, ScanEnd, AllFill;
    ScanLeads(d, r, n, end);
    PrependFirst(Scan(r[2..n], r[n..][..end]), Parse(r[n + end..]));
    BehindScan(r, n, end, eof);
  }

  lemma FirstItem(d: bytes) returns (rest: bytes)
    requires Parse(d).Some? && Parse(d).value != []
    ensures First(d, Parse(d).value, rest)
  {
    hide Parse, ScanEnd, Get16, First, Fill;
    ParseCases(d);
    var m, r := d[Fill(d)], d[Fill(d) + 1..];
    var xs := Parse(d).value;
    if Restart(m) || m == TEM {
      rest := r;
      FirstStandalone(d, m, r, xs);
    } else if m != SOS {
      rest := r[Get16(Big, r[..2])..];
      FirstSegment(d, m, r, xs);
    } else {
      var n := Get16(Big, r[..2]);
      var (end, eof) := ScanEnd(r[n..]);
      rest := r[n + end..];
      FirstScan(d, r, n, end, eof, xs);
    }
  }

  lemma EndSpells(d: bytes)
    requires Parse(d) == Some([])
    ensures Spells(d, [])
  {
    hide ScanEnd, Get16;
    var n := Fill(d) - 1;
    FillIsFill(d, n);
    assert d[n..n + 2] == [0xFF, 0xD9];
  }

  lemma ItemSpells(d: bytes, xs: seq<Item>, rest: bytes)
    requires xs != [] && Leads(d, xs[0], rest)
    requires Spells(rest, xs[1..]) || (|xs| == 1 && xs[0].Scan? && AllFill(rest))
    ensures Spells(d, xs)
  {
    hide PrintItem;
  }

  /** A marker that is neither a zero nor a restart marker begins an item that is neither. */
  lemma FirstIsNotSwallowed(d: bytes)
    requires Parse(d).Some? && Parse(d).value != [] && d[Fill(d)] != 0 && !Restart(d[Fill(d)])
    ensures !Swallowed(Parse(d).value[0])
  {
    hide ScanEnd, Get16;
  }

  /** The items are the input: one behind the other, with nothing but fill bytes between them, up to
      the end of image or a scan that runs off the end; no marker lies in a scan's data; and a scan
      ends only before a marker that is neither a stuffed zero nor a restart marker. */
  lemma {:induction false} ItemsAreTheInput(d: bytes)
    requires Parse(d).Some?
    ensures Spells(d, Parse(d).value)
    ensures forall x :: x in Parse(d).value && x.Scan? ==> NoMarker(x.data)
    ensures Firm(Parse(d).value)
    decreases |d|
  {
    hide Parse, Spells, Leads, ScanEnd, NoMarker, Swallowed;
    var xs := Parse(d).value;
    if xs == [] {
      EndSpells(d);
    } else {
      var rest := FirstItem(d);
      ParseOneOk(d);
      if xs[0].Scan? {
        WholeScanHasNoMarker(xs[0].data);
      }
      if Parse(rest) == Some(xs[1..]) {
        ItemsAreTheInput(rest);
        if xs[0].Scan? && |xs| > 1 {
          FirstIsNotSwallowed(rest);
        }
      }
      ItemSpells(d, xs, rest);
      assert xs == [xs[0]] + xs[1..];
    }
  }

  // ---- stripping twice ------------------------------------------------------------------------------------

  /** A re-read scan takes the restart markers behind it into its data. */
  function Fuse(xs: seq<Item>): seq<Item>
    decreases |xs|
  {
    if xs == [] then []
    else if xs[0].Scan? && |xs| > 1 && xs[1].Standalone? && Restart(xs[1].marker) then
      Fuse([Scan(xs[0].payload, xs[0].data + [0xFF, xs[1].marker])] + xs[2..])
    else [xs[0]] + Fuse(xs[1..])
  }

  lemma {:induction false} PrintFuse(xs: seq<Item>)
    ensures Print(Fuse(xs)) == Print(xs)
    decreases |xs|
  {
    hide Put16;
    if xs != [] {
      if xs[0].Scan? && |xs| > 1 && xs[1].Standalone? && Restart(xs[1].marker) {
        var one := Scan(xs[0].payload, xs[0].data + [0xFF, xs[1].marker]);
        var ys := [one] + xs[2..];
        PrintFuse(ys);
        assert ys[1..] == xs[2..] && xs[1..][1..] == xs[2..];
        assert PrintItem(one) == PrintItem(xs[0]) + PrintItem(xs[1]);
        Assoc(PrintItem(xs[0]), PrintItem(xs[1]), Print(xs[2..]));
      } else {
        PrintFuse(xs[1..]);
        assert ([xs[0]] + Fuse(xs[1..]))[1..] == Fuse(xs[1..]);
      }
    }
  }

  lemma FusedScanOk(p: bytes, data: bytes, m: byte)
    requires ItemOk(Scan(p, data)) && Restart(m)
    ensures ItemOk(Scan(p, data + [0xFF, m]))
  {
    ScanExtended(data, [0xFF, m]);
    ScanSwallows(m, []);
    assert [0xFF, m] + [] == [0xFF, m];
  }

  lemma {:induction false} FuseOk(xs: seq<Item>)
    requires AllOk(xs) && (forall x :: x in xs ==> Kept(x))
    ensures AllOk(Fuse(xs)) && (forall x :: x in Fuse(xs) ==> Kept(x))
    decreases |xs|
  {
    hide ItemOk;
    if xs != [] {
      if xs[0].Scan? && |xs| > 1 && xs[1].Standalone? && Restart(xs[1].marker) {
        FusedScanOk(xs[0].payload, xs[0].data, xs[1].marker);
        var ys := [Scan(xs[0].payload, xs[0].data + [0xFF, xs[1].marker])] + xs[2..];
        assert ys[1..] == xs[2..] && xs[1..][1..] == xs[2..];
        FuseOk(ys);
      } else {
        FuseOk(xs[1..]);
        assert ([xs[0]] + Fuse(xs[1..]))[1..] == Fuse(xs[1..]);
      }
    }
  }

  lemma {:induction false} KeepAll(xs: seq<Item>)
    requires forall x :: x in xs ==> Kept(x)
    ensures Keep(xs) == xs
  {
    if xs != [] {
      KeepAll(xs[1..]);
      assert xs[0] in xs;
    }
  }

  /** Stripping the output again returns it unchanged, unless a zero marker with a payload comes
      behind a scan and the restart markers that follow it. */
  lemma StripTwice(d: bytes)
    requires Stripped(d).Some? && Firm(Fuse(Keep(Parse(d[2..]).value)))
    ensures Stripped(Stripped(d).value) == Stripped(d)
  {
    hide Parse, Print, Keep, AllOk, Firm, Fuse, Kept;
    var o, kept := Stripped(d).value, Keep(Parse(d[2..]).value);
    ParseOk(d[2..]);
    KeepOk(Parse(d[2..]).value);
    FuseOk(kept);
    PrintFuse(kept);
    ParsePrint(Fuse(kept), []);
    KeepAll(Fuse(kept));
    assert o[2..] == Print(kept) + END;
    assert Print(kept) + END + [] == Print(kept) + END;
  }

  lemma {:induction false} NoZeroIsFirm(xs: seq<Item>)
    requires forall x :: x in xs ==> !(x.Segment? && x.marker == 0)
    ensures Firm(Fuse(xs))
    ensures Fuse(xs) != [] ==> xs != [] && (Fuse(xs)[0] == xs[0] || (xs[0].Scan? && Fuse(xs)[0].Scan?))
    decreases |xs|
  {
    if xs != [] {
      if xs[0].Scan? && |xs| > 1 && xs[1].Standalone? && Restart(xs[1].marker) {
        NoZeroIsFirm([Scan(xs[0].payload, xs[0].data + [0xFF, xs[1].marker])] + xs[2..]);
      } else {
        NoZeroIsFirm(xs[1..]);
        var f := Fuse(xs[1..]);
        assert ([xs[0]] + f)[1..] == f;
        if f != [] {
          assert xs[1..][0] in xs;
        }
      }
    }
  }

  /** In particular for every accepted input without a zero marker in segment position. */
  lemma StripTwiceWithoutZero(d: bytes)
    requires Stripped(d).Some? && forall x :: x in Keep(Parse(d[2..]).value) ==> !(x.Segment? && x.marker == 0)
    ensures Stripped(Stripped(d).value) == Stripped(d)
  {
    NoZeroIsFirm(Keep(Parse(d[2..]).value));
    StripTwice(d);
  }

  lemma {:induction false} OrdinaryIsFirm(xs: seq<Item>)
    requires forall x :: x in xs ==> !Swallowed(x)
    ensures Firm(xs)
  {
    if |xs| > 1 {
      assert xs[1] in xs;
      OrdinaryIsFirm(xs[1..]);
    }
  }

  lemma {:induction false} KeepIsPart(xs: seq<Item>)
    ensures forall x :: x in Keep(xs) ==> x in xs
  {
    hide Kept;
    if xs != [] {
      KeepIsPart(xs[1..]);
      assert xs == [xs[0]] + xs[1..];
    }
  }

  /** For every accepted image with neither a restart nor a zero marker in segment position, which is
      every ordinary one: the output re-parses to exactly the kept items and strips to itself. */
  lemma OrdinaryImagesAreStable(d: bytes)
    requires Stripped(d).Some? && forall x :: x in Parse(d[2..]).value ==> !Swallowed(x)
    ensures var o := Stripped(d).value;
            Parse(o[2..]) == Some(Keep(Parse(d[2..]).value)) && Stripped(o) == Some(o)
  {
    hide Parse, Print, Keep, Firm, AllOk;
    var kept := Keep(Parse(d[2..]).value);
    KeepIsPart(Parse(d[2..]).value);
    OrdinaryIsFirm(kept);
    StripKeepsThePicture(d);
    StripTwiceWithoutZero(d);
  }

  /** The exception is real. A zero marker whose payload holds an APP1 segment, cut off from the scan
      by a comment: once the comment is gone the scan takes the zero marker in, and the second
      pass finds the APP1. */
  const HIDDEN: bytes := [0xFF, APP1, 0, 2]
  const BEHIND_COMMENT: seq<Item> := [Scan([], [1]), Segment(COM, []), Segment(0, HIDDEN)]
  const ZERO_MARKER: bytes := START + Print(BEHIND_COMMENT) + END

  const LAID_BARE: seq<Item> := [Scan([], [1, 0xFF, 0, 0, 6]), Segment(APP1, [])]

  lemma OneItem(x: Item)
    ensures Print([x]) == PrintItem(x) && Keep([x]) == (if Kept(x) then [x] else [])
    ensures (ItemOk(x) ==> AllOk([x])) && Firm([x])
  {
    hide PrintItem, Kept, ItemOk;
    assert [x][1..] == [];
  }

  lemma MoreItems(x: Item, xs: seq<Item>)
    ensures Print([x] + xs) == PrintItem(x) + Print(xs) && Keep([x] + xs) == (if Kept(x) then [x] else []) + Keep(xs)
    ensures ItemOk(x) && AllOk(xs) ==> AllOk([x] + xs)
    ensures Firm(xs) && (x.Scan? && xs != [] ==> !Swallowed(xs[0])) ==> Firm([x] + xs)
  {
    hide PrintItem, Kept, ItemOk;
    assert ([x] + xs)[1..] == xs;
  }

  lemma ZeroMarkerItems()
    ensures AllOk(BEHIND_COMMENT) && Firm(BEHIND_COMMENT) && AllOk(LAID_BARE) && Firm(LAID_BARE)
    ensures Keep(BEHIND_COMMENT) == [BEHIND_COMMENT[0], BEHIND_COMMENT[2]] && Keep(LAID_BARE) == [LAID_BARE[0]]
  {
    hide ScanEnd, AllOk, Firm, Keep, Print;
    ScanOfBytes();
    var xs, ys := BEHIND_COMMENT, LAID_BARE;
    OneItem(xs[2]);
    MoreItems(xs[1], [xs[2]]);
    MoreItems(xs[0], [xs[1]] + [xs[2]]);
    OneItem(ys[1]);
    MoreItems(ys[0], [ys[1]]);
    assert xs == [xs[0]] + ([xs[1]] + [xs[2]]) && ys == [ys[0]] + [ys[1]];
  }

  lemma ZeroMarkerBytes()
    ensures Print([BEHIND_COMMENT[0], BEHIND_COMMENT[2]]) == Print(LAID_BARE)
    ensures |Print([LAID_BARE[0]])| < |Print(LAID_BARE)|
  {
    hide Print, PrintItem, Put16, END, START, ItemOk, Kept;
    var x, z, y, w := BEHIND_COMMENT[0], BEHIND_COMMENT[2], LAID_BARE[0], LAID_BARE[1];
    ZeroMarkerFour();
    TwoItems(x, z);
    TwoItems(y, w);
    OneItem(y);
    assert LAID_BARE == [y, w];
    var one: bytes, two: bytes := [0xFF, SOS, 0, 2, 1], [0xFF, 0, 0, 6];
    Assoc(one, two, [0xFF, APP1, 0, 2]);
    assert [0xFF, SOS, 0, 2, 1, 0xFF, 0, 0, 6] == one + two;
    assert [0xFF, 0, 0, 6, 0xFF, APP1, 0, 2] == two + [0xFF, APP1, 0, 2];
  }

  lemma TwoItems(x: Item, y: Item)
    ensures Print([x, y]) == PrintItem(x) + PrintItem(y)
  {
    hide PrintItem, Print;
    OneItem(y);
    MoreItems(x, [y]);
    assert [x, y] == [x] + [y];
  }

  lemma ZeroMarkerFour()
    ensures PrintItem(BEHIND_COMMENT[0]) == [0xFF, SOS, 0, 2, 1]
    ensures PrintItem(BEHIND_COMMENT[2]) == [0xFF, 0, 0, 6, 0xFF, APP1, 0, 2]
    ensures PrintItem(LAID_BARE[0]) == [0xFF, SOS, 0, 2, 1, 0xFF, 0, 0, 6]
    ensures PrintItem(LAID_BARE[1]) == [0xFF, APP1, 0, 2]
  {
  }

  lemma ZeroMarkerIsNotStable()
    ensures Stripped(ZERO_MARKER).Some? && Stripped(Stripped(ZERO_MARKER).value) != Stripped(ZERO_MARKER)
  {
    hide Parse, Print, Keep, AllOk, Firm;
    ZeroMarkerItems();
    ZeroMarkerBytes();
    ParsePrintFirm(BEHIND_COMMENT);
    ParsePrintFirm(LAID_BARE);
    assert ZERO_MARKER[2..] == Print(BEHIND_COMMENT) + END;
    var o := Stripped(ZERO_MARKER).value;
    assert o[2..] == Print(LAID_BARE) + END;
    assert |Stripped(o).value| < |o|;
  }

  lemma ScanOfBytes()
    ensures ScanEnd([1]) == (1, true) && ScanEnd([1, 0xFF, 0, 0, 6]) == (5, true)
  {
    hide ScanEnd;
    var d: bytes, e: bytes, f: bytes, g: bytes := [1, 0xFF, 0, 0, 6], [0xFF, 0] + [0, 6], [0, 6], [6];
    var one: bytes := [1];
    assert d[1..] == e && f[1..] == g && g[1..] == [] && one[1..] == [];
    ScanSwallows(0, f);
    ScanCases(d);
    ScanCases(f);
    ScanCases(g);
    ScanCases(one);
    assert ScanEnd([]) == (0, true) by { ScanAtEnd([]); }
  }

  lemma ParsePrintFirm(xs: seq<Item>)
    requires AllOk(xs) && Firm(xs)
    ensures Parse(Print(xs) + END) == Some(xs)
  {
    ParsePrint(xs, []);
    assert Print(xs) + END + [] == Print(xs) + END;
  }

  // ---- the loops -------------------------------------------------------------------------------------------

  method ReadMarker(data: bytes, at: nat) returns (marker: byte, next: nat, ok: bool)
    requires at <= |data|
    ensures ok <==> 0 < Fill(data[at..]) < |data| - at
    ensures ok ==> marker == data[at..][Fill(data[at..])] && next == at + Fill(data[at..]) + 1 <= |data|
  {
    marker, next, ok := 0, at, false;
    if at >= |data| || data[at] != 0xFF {
      return;
    }
    var i := at;
    assert data[at..][0] == data[at];
    while i < |data| && data[i] == 0xFF
      invariant at <= i <= |data|
      invariant Fill(data[at..]) == i - at + Fill(data[i..])
    {
      assert data[i..][0] == data[i] && data[i..][1..] == data[i + 1..];
      i := i + 1;
    }
    assert Fill(data[i..]) == 0;
    if i >= |data| {
      return;
    }
    assert data[at..][i - at] == data[i];
    return data[i], i + 1, true;
  }

  lemma FillStep(data: bytes, i: nat)
    requires i <= |data|
    ensures i < |data| && data[i] == 0xFF ==> Fill(data[i..]) == 1 + Fill(data[i + 1..])
    ensures i == |data| || data[i] != 0xFF ==> Fill(data[i..]) == 0
  {
    if i < |data| {
      assert data[i..][0] == data[i] && data[i..][1..] == data[i + 1..];
    }
  }

  lemma ScanCases(d: bytes)
    ensures d != [] && ScanSkip(d) > 0 ==> ScanEnd(d) == Later(ScanSkip(d), ScanEnd(d[ScanSkip(d)..]))
    ensures d != [] && ScanSkip(d) == 0 ==> ScanEnd(d) == (0, Fill(d) == |d|)
  {
    hide ScanSkip;
  }

  /** The scan from a cursor, by what stands there and at the end of its fill bytes. */
  lemma ScanAt(data: bytes, i: nat, next: nat)
    requires i < |data| && next == i + Fill(data[i..]) <= |data|
    ensures var end := Later(i, ScanEnd(data[i..]));
            if data[i] != 0xFF then end == Later(i + 1, ScanEnd(data[i + 1..]))
            else if next == |data| then end == (i, true)
            else if data[next] == 0 || Restart(data[next]) then end == Later(next + 1, ScanEnd(data[next + 1..]))
            else end == (i, false)
  {
    hide Fill, ScanEnd;
    var d := data[i..];
    ScanCases(d);
    assert d[0] == data[i] && d[ScanSkip(d)..] == data[i + ScanSkip(d)..];
    assert next < |data| ==> d[next - i] == data[next];
  }

  method JpegScanEnd(data: bytes, at: nat) returns (end: nat, eof: bool)
    requires at <= |data|
    ensures (end, eof) == Later(at, ScanEnd(data[at..])) && at <= end <= |data|
  {
    hide ScanEnd, Fill, Later;
    ghost var result := Later(at, ScanEnd(data[at..]));
    var i := at;
    while i < |data|
      invariant at <= i <= |data|
      invariant result == Later(i, ScanEnd(data[i..]))
    {
      FillStep(data, i);
      if data[i] != 0xFF {
        ScanAt(data, i, i);
        i := i + 1;
        continue;
      }
      var next := i + 1;
      while next < |data| && data[next] == 0xFF
        invariant i < next <= |data|
        invariant Fill(data[i..]) == next - i + Fill(data[next..])
      {
        FillStep(data, next);
        next := next + 1;
      }
      FillStep(data, next);
      ScanAt(data, i, next);
      if next >= |data| {
        return i, true;
      }
      var b := data[next];
      if b == 0 || Restart(b) {
        i := next + 1;
        continue;
      }
      return i, false;
    }
    ScanAtEnd(data);
    return |data|, true;
  }

  lemma ScanAtEnd(data: bytes)
    ensures Later(|data|, ScanEnd(data[|data|..])) == (|data|, true)
  {
  }

  lemma {:induction false} KeepAppend(xs: seq<Item>, x: Item)
    ensures Print(Keep(xs + [x])) == Print(Keep(xs)) + (if Kept(x) then PrintItem(x) else [])
  {
    hide PrintItem, Kept;
    if xs != [] {
      assert (xs + [x])[1..] == xs[1..] + [x];
      KeepAppend(xs[1..], x);
      if Kept(xs[0]) {
        assert ([xs[0]] + Keep(xs[1..]))[1..] == Keep(xs[1..]);
        assert ([xs[0]] + Keep(xs[1..] + [x]))[1..] == Keep(xs[1..] + [x]);
        Assoc(PrintItem(xs[0]), Print(Keep(xs[1..])), if Kept(x) then PrintItem(x) else []);
      } else {
        assert Keep(xs) == Keep(xs[1..]) && Keep(xs + [x]) == Keep(xs[1..] + [x]);
      }
    } else {
      assert (xs + [x])[1..] == [];
      assert ([x] + [])[1..] == [];
    }
  }

  lemma PrependTwice(done: seq<Item>, x: Item, rest: Option<seq<Item>>)
    ensures Prepend(done, Prepend([x], rest)) == Prepend(done + [x], rest)
    ensures Prepend(done, Some([x])) == Some(done + [x])
    ensures Prepend(done, Some([])) == Some(done)
  {
    if rest.Some? {
      assert done + ([x] + rest.value) == done + [x] + rest.value;
    }
    assert done + [] == done;
  }

  lemma FramedPrint(m: byte, r: bytes)
    requires |r| >= 2 && 2 <= Get16(Big, r[..2]) <= |r|
    ensures Put16(Big, Get16(Big, r[..2])) == r[..2]
    ensures PrintItem(Segment(m, r[2..Get16(Big, r[..2])])) == [0xFF, m] + r[..Get16(Big, r[..2])]
  {
    var a, b := r[0], r[1];
    assert Shift(a, b) / 256 % 256 == a && Shift(a, b) % 256 == b;
    assert r[..Get16(Big, r[..2])] == r[..2] + r[2..Get16(Big, r[..2])];
  }

  lemma FramedScanPrint(r: bytes, data: bytes)
    requires |r| >= 2 && 2 <= Get16(Big, r[..2]) <= |r|
    ensures PrintItem(Scan(r[2..Get16(Big, r[..2])], data)) == [0xFF, SOS] + r[..Get16(Big, r[..2])] + data
  {
    hide Get16, Put16;
    var p := r[2..Get16(Big, r[..2])];
    FramedPrint(SOS, r);
    assert PrintItem(Scan(p, data)) == PrintItem(Segment(SOS, p)) + data;
  }

  /** The loop's invariant: what has been written is the kept part of what has been read. */
  ghost predicate Progress(data: bytes, i: nat, out: bytes, done: seq<Item>) {
    && 2 <= i <= |data|
    && out == START + Print(Keep(done))
    && Parse(data[2..]) == Prepend(done, Parse(data[i..]))
  }

  /** The invariant after one more item, of which `printed` was written. */
  lemma Turn(data: bytes, i: nat, out: bytes, done: seq<Item>, x: Item, next: nat, printed: bytes)
    requires Progress(data, i, out, done) && next <= |data| && 2 <= next
    requires printed == if Kept(x) then PrintItem(x) else []
    requires Parse(data[i..]) == Prepend([x], Parse(data[next..]))
    ensures Progress(data, next, out + printed, done + [x])
  {
    hide Print, Keep, Parse, PrintItem, Kept;
    KeepAppend(done, x);
    PrependTwice(done, x, Parse(data[next..]));
    Assoc(START, Print(Keep(done)), printed);
  }

  /** The result when the input ends here: at the end of image, or with a last scan. */
  lemma Finish(data: bytes, i: nat, out: bytes, done: seq<Item>)
    requires LooksLike(data) && Progress(data, i, out, done)
    ensures Parse(data[i..]) == Some([]) ==> Stripped(data) == Some(out + END)
    ensures Parse(data[i..]) == None ==> Stripped(data) == None
  {
    hide Print, Keep, Parse;
    PrependTwice(done, Standalone(TEM), None);
  }

  lemma FinishScan(data: bytes, i: nat, out: bytes, done: seq<Item>, x: Item)
    requires LooksLike(data) && Progress(data, i, out, done) && Kept(x) && Parse(data[i..]) == Some([x])
    ensures Stripped(data) == Some(out + PrintItem(x) + END)
  {
    hide Print, Keep, Parse, PrintItem, Kept;
    KeepAppend(done, x);
    PrependTwice(done, x, None);
    Assoc(START, Print(Keep(done)), PrintItem(x));
  }

  method Strip(data: bytes) returns (res: Option<bytes>)
    ensures res == Stripped(data)
  {
    hide Stripped, Progress, ScanEnd, Get16, PrintItem, KeepSegment, Put16, Parse, ParseFramed, Prepend, Later;
    if !LooksLike(data) {
      NotAnImage(data);
      return None;
    }
    var out, i := START, 2;
    ghost var done: seq<Item> := [];
    Begin(data);
    while i < |data|
      invariant 2 <= i <= |data|
      invariant Progress(data, i, out, done)
    {
      ghost var d := data[i..];
      ParseCases(d);
      Finish(data, i, out, done);
      var marker, next, ok := ReadMarker(data, i);
      if !ok {
        return None;
      }
      ghost var r := data[next..];
      assert d[Fill(d) + 1..] == r;
      if marker == EOI {
        return Some(out + END);
      } else if marker == SOI {
        return None;
      } else if Restart(marker) || marker == TEM {
        PrintStandalone(Standalone(marker));
        Turn(data, i, out, done, Standalone(marker), next, [0xFF, marker]);
        out := out + [0xFF, marker];
        done := done + [Standalone(marker)];
        i := next;
        continue;
      }
      if next + 2 > |data| {
        return None;
      }
      assert data[next..next + 2] == r[..2];
      var length := Get16(Big, data[next..next + 2]);
      if length < 2 || next + length > |data| {
        return None;
      }
      var end := next + length;
      Framed(data, next, length, marker);
      assert Parse(d) == ParseFramed(marker, r);
      if marker != SOS {
        ghost var x := Segment(marker, data[next + 2..end]);
        var printed: bytes := [];
        if KeepSegment(marker, data[next + 2..end]) {
          printed := [0xFF, marker] + data[next..end];
        }
        Turn(data, i, out, done, x, end, printed);
        out := out + printed;
        done := done + [x];
        i := end;
      } else {
        var stop, eof := JpegScanEnd(data, end);
        ghost var x := Scan(data[next + 2..end], data[end..stop]);
        var printed := [0xFF, SOS] + data[next..end] + data[end..stop];
        FramedScan(data, next, length, stop, eof);
        if eof {
          FinishScan(data, i, out, done, x);
          return Some(out + printed + END);
        }
        Turn(data, i, out, done, x, stop, printed);
        out := out + printed;
        done := done + [x];
        i := stop;
      }
    }
    ParseCases(data[i..]);
    Finish(data, i, out, done);
    return None;
  }

  lemma NotAnImage(data: bytes)
    requires !LooksLike(data)
    ensures Stripped(data) == None
  {
  }

  lemma Begin(data: bytes)
    requires LooksLike(data)
    ensures Progress(data, 2, START, [])
  {
    assert Parse(data[2..]).Some? ==> [] + Parse(data[2..]).value == Parse(data[2..]).value;
    assert START + [] == START;
  }

  /** The frame of a segment, in terms of the data it lies in. */
  lemma Framed(data: bytes, next: nat, length: nat, m: byte)
    requires next + 2 <= |data| && length == Get16(Big, data[next..][..2]) && 2 <= length <= |data| - next
    ensures var r, end := data[next..], next + length;
            && PrintItem(Segment(m, data[next + 2..end])) == [0xFF, m] + data[next..end]
            && (m != SOS ==> ParseFramed(m, r) == Prepend([Segment(m, data[next + 2..end])], Parse(data[end..])))
  {
    hide Parse, ScanEnd, Get16, PrintItem;
    var r, end := data[next..], next + length;
    assert r[..length] == data[next..end] && r[length..] == data[end..] && r[2..length] == data[next + 2..end];
    FramedPrint(m, r);
  }

  lemma FramedScan(data: bytes, next: nat, length: nat, stop: nat, eof: bool)
    requires next + 2 <= |data| && length == Get16(Big, data[next..][..2]) && 2 <= length <= |data| - next
    requires next + length <= stop <= |data| && (stop, eof) == Later(next + length, ScanEnd(data[next + length..]))
    ensures var r, end := data[next..], next + length;
            var x := Scan(data[next + 2..end], data[end..stop]);
            && PrintItem(x) == [0xFF, SOS] + data[next..end] + data[end..stop]
            && ParseFramed(SOS, r) == if eof then Some([x]) else Prepend([x], Parse(data[stop..]))
  {
    hide Parse, ScanEnd, Get16, PrintItem;
    var r, end := data[next..], next + length;
    assert r[..length] == data[next..end] && r[length..] == data[end..] && r[2..length] == data[next + 2..end];
    FramedScanPrint(r, data[end..stop]);
    assert r[length..][..stop - end] == data[end..stop] && r[length + (stop - end)..] == data[stop..];
  }
}
