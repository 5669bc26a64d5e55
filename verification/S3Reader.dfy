/** The ranged reader of internal/storage/s3_reader.go: reads and seeks over bounded range requests
    behave like reads and seeks over the object's bytes. */
module S3Reader {
  import opened Prelude
  import opened Bytes

  const RANGE_LIMIT: nat := 1_048_576
  const MAX_INT64: int := 0x7FFF_FFFF_FFFF_FFFF
  const MIN_INT64: int := -0x8000_0000_0000_0000

  predicate Int64(n: int) { MIN_INT64 <= n <= MAX_INT64 }

  datatype Error = NoError | Eof | UnexpectedEof | Closed | Cancelled | Refusal | InvalidRange | InvalidSeek | Broken

  function Least(a: nat, b: nat): nat { if a < b then a else b }

  // ---- the other side ------------------------------------------------------------------------------------------

  /** How a response body reports its state along with the bytes of one read. */
  datatype Signal = Silent | End | Failure

  /** A response body: what the connection will still deliver. It may give fewer bytes than asked,
      none at all, and its end together with the last bytes or only afterwards. */
  class Body {
    var rest: bytes

    constructor (stream: bytes)
      ensures rest == stream
    {
      rest := stream;
    }

    method Read(limit: nat, take: nat, signal: Signal) returns (data: bytes, err: Error)
      modifies this
      ensures |data| == Least(take, Least(limit, |old(rest)|)) && old(rest) == data + rest
      ensures err in {NoError, Eof, Broken}
      ensures (err == Eof <==> signal.End? && rest == []) && (err == Broken <==> signal.Failure?)
    {
      var n := Least(take, Least(limit, |rest|));
      data := rest[..n];
      rest := rest[n..];
      err := match signal
             case Silent => NoError
             case End => if rest == [] then Eof else NoError
             case Failure => Broken;
    }
  }

  /** A reply to a range request: the range its header names and the bytes the connection carries. */
  datatype Reply = Refused | Sent(begin: int, end: int, total: int, length: int, stream: bytes)

  /** The object does not change, so a reply that names a range carries bytes of it, all or only the
      first of them. */
  ghost predicate Honest(content: bytes, reply: Reply) {
    reply.Sent? && 0 <= reply.begin <= reply.end < |content| ==> reply.stream <= content[reply.begin..reply.end + 1]
  }

  /** What surrounds one read: the context, the reply to a request should one be made, and how the
      body answers. */
  datatype Wire = Wire(cancelled: bool, reply: Reply, take: nat, signal: Signal)

  datatype Request = Request(begin: nat, size: nat)

  ghost predicate Bounded(content: bytes, r: Request) { 0 < r.size <= RANGE_LIMIT && r.begin + r.size <= |content| }

  // ---- one read, as a step over the bytes --------------------------------------------------------------------------

  /** What a read of up to `count` bytes at `offset` may return. */
  ghost predicate ReadStep(content: bytes, offset: nat, count: nat, data: bytes, err: Error) {
    && |data| <= count
    && (data != [] ==> offset + |data| <= |content| && data == content[offset..offset + |data|])
    && (err == Eof ==> offset >= |content| && data == [])
    && (err == UnexpectedEof ==> offset + |data| < |content|)
    && (offset >= |content| ==> data == [])
  }

  datatype Whence = FromStart | FromCurrent | FromEnd | Unknown

  function SeekBase(content: bytes, offset: nat, whence: Whence): (base: nat)
    requires whence != Unknown
  {
    match whence case FromStart => 0 case FromCurrent => offset case FromEnd => |content|
  }

  class Reader {
    /** The object's bytes; the reader itself only knows how many there are. */
    ghost const content: bytes
    const size: nat
    var offset: int
    var remaining: int
    var body: Body?
    var closed: bool
    /** The range requests made so far. */
    ghost var requests: seq<Request>

    ghost predicate Valid()
      reads this, body
    {
      && size == |content| <= MAX_INT64 && 0 <= offset <= MAX_INT64
      && (body != null ==>
            && 0 < remaining <= RANGE_LIMIT && offset + remaining <= size
            && body.rest <= content[offset..offset + remaining])
      && (forall r :: r in requests ==> Bounded(content, r))
    }

    constructor (ghost object_: bytes, length: nat)
      requires length == |object_| <= MAX_INT64
      ensures Valid() && content == object_ && offset == 0 && !closed && body == null && requests == []
    {
      content := object_;
      size := length;
      offset, remaining, body, closed := 0, 0, null, false;
      requests := [];
    }

    /** The range a request from the offset asks for. */
    ghost function Wanted(): Request
      requires 0 <= offset < size
      reads this
    {
      Request(offset, Least(RANGE_LIMIT, size - offset))
    }

    /** The reply names that range of an object of this size. */
    ghost predicate Names(reply: Reply)
      requires 0 <= offset < size
      reads this
    {
      && reply.Sent? && reply.begin == offset && reply.total == size
      && reply.length == Wanted().size && reply.end == offset + Wanted().size - 1
    }

    /** What the connection still has for this reader, and how much of it belongs to its range. */
    ghost function Stream(reply: Reply): bytes
      requires body != null || reply.Sent?
      reads this, body
    {
      if body != null then body.rest else reply.stream
    }

    ghost function Left(): int
      requires body != null || 0 <= offset < size
      reads this
    {
      if body != null then remaining else Wanted().size
    }

    /** A read gets as far as the connection, and finds one open or opens one. */
    ghost predicate Tries(count: nat, wire: Wire)
      reads this
    {
      !closed && !wire.cancelled && count > 0 && 0 <= offset < size
    }

    ghost predicate Connects(count: nat, wire: Wire)
      reads this
    {
      Tries(count, wire) && (body != null || Names(wire.reply))
    }

    /** openRange: at most one mebibyte from the offset on, checked against the reply's header. */
    method OpenRange(reply: Reply) returns (err: Error)
      requires Valid() && body == null && offset < size && Honest(content, reply)
      modifies this`body, this`remaining, this`requests
      ensures Valid()
      ensures err in {NoError, Refusal, InvalidRange}
      ensures (err == NoError <==> Names(reply)) && (err == Refusal <==> reply.Refused?)
      ensures body != null <==> err == NoError
      ensures body != null ==> fresh(body) && body.rest == reply.stream && remaining == Wanted().size
      ensures requests == old(requests) + [Wanted()]
    {
      var end := offset + Least(RANGE_LIMIT, size - offset) - 1;
      assert Int64(end) && Int64(size - offset);
      requests := requests + [Request(offset, end - offset + 1)];
      if reply.Refused? {
        return Refusal;
      }
      if reply.begin != offset || reply.end != end || reply.total != size || reply.length != end - offset + 1 {
        return InvalidRange;
      }
      body := new Body(reply.stream);
      remaining := end - offset + 1;
      assert content[offset..offset + remaining] == content[reply.begin..reply.end + 1];
      return NoError;
    }

    method CloseBody()
      modifies this`body
      ensures body == null
    {
      body := null;
    }

    /** The second half of Read: what the open response still delivers. */
    method ReadBody(count: nat, wire: Wire) returns (data: bytes, err: Error)
      requires Valid() && body != null && offset < size
      modifies this`offset, this`remaining, this`body, body
      ensures Valid() && offset == old(offset) + |data| && (body == null || body == old(body))
      ensures ReadStep(content, old(offset), count, data, err) && err != Eof
      ensures |data| == Least(wire.take, Least(Least(count, old(remaining)), |old(body.rest)|))
      ensures err in {NoError, UnexpectedEof, Broken} && (err == Broken <==> wire.signal.Failure?)
      ensures err == UnexpectedEof <==> wire.signal.End? && |data| == |old(body.rest)| < old(remaining)
      ensures body == null <==> |data| == old(remaining)
      ensures body != null ==> body.rest == old(body.rest)[|data|..] && remaining == old(remaining) - |data|
    {
      hide ReadStep, Bounded;
      ghost var stream := body.rest;
      assert stream <= content[offset..offset + remaining];
      data, err := body.Read(Least(count, remaining), wire.take, wire.signal);
      assert data + body.rest <= content[offset..offset + remaining];
      Advanced(content, offset, remaining, data, body.rest);
      SomethingRead(content, offset, count, remaining, data);
      offset := offset + |data|;
      remaining := remaining - |data|;
      if err == Eof && remaining > 0 {
        err := UnexpectedEof;
      }
      if remaining == 0 {
        CloseBody();
        if err == Eof {
          err := NoError;
        }
      }
    }

    /** Read. The bytes are those of the object at the offset, as many as were asked for and the
        connection gave; the offset moves over exactly them. Every error has its one cause: the end of
        the object is reported there and nowhere else, a connection that ends before its range is an
        early end, one that fails is broken, and a reply that does not name the range is refused. */
    method Read(count: nat, wire: Wire) returns (data: bytes, err: Error)
      requires Valid() && Honest(content, wire.reply)
      modifies this, body
      ensures Valid() && closed == old(closed) && offset == old(offset) + |data|
      ensures body == null || body == old(body) || fresh(body)
      ensures ReadStep(content, old(offset), count, data, err)
      ensures err == Eof <==> !closed && !wire.cancelled && count > 0 && old(offset) >= size
      ensures err == Closed <==> closed
      ensures err == Cancelled <==> !closed && wire.cancelled
      ensures requests == if old(Tries(count, wire)) && old(body) == null then old(requests) + [old(Wanted())] else old(requests)
      ensures err == Refusal <==> old(Tries(count, wire)) && old(body) == null && wire.reply.Refused?
      ensures err == InvalidRange <==>
                old(Tries(count, wire)) && old(body) == null && wire.reply.Sent? && !old(Names(wire.reply))
      ensures err == Broken <==> old(Connects(count, wire)) && wire.signal.Failure?
      ensures err == UnexpectedEof <==>
                old(Connects(count, wire)) && wire.signal.End? && |data| == |old(Stream(wire.reply))| < old(Left())
      ensures err != InvalidSeek && (!old(Connects(count, wire)) ==> data == [])
      ensures old(Connects(count, wire)) ==>
                && |data| == Least(wire.take, Least(Least(count, old(Left())), |old(Stream(wire.reply))|))
                && (body == null <==> |data| == old(Left()))
                && (body != null ==> body.rest == old(Stream(wire.reply))[|data|..] && remaining == old(Left()) - |data|)
    {
      hide ReadStep, Bounded, Honest;
      forall e | e != UnexpectedEof && (e == Eof ==> offset >= size)
        ensures ReadStep(content, offset, count, [], e)
      {
        NothingRead(content, offset, count, e);
      }
      if closed {
        return [], Closed;
      }
      if wire.cancelled {
        return [], Cancelled;
      }
      if count == 0 {
        return [], NoError;
      }
      if offset >= size {
        return [], Eof;
      }
      if body == null {
        err := OpenRange(wire.reply);
        if err != NoError {
          return [], err;
        }
      }
      data, err := ReadBody(count, wire);
    }

    /** Seek. A position is accepted if and only if it is a non-negative 64-bit number, no arithmetic
        on the way wraps, nothing is requested, and a refused seek changes nothing. */
    method Seek(delta: int, whence: Whence) returns (position: int, err: Error)
      requires Valid() && Int64(delta)
      modifies this`offset, this`body
      ensures Valid()
      ensures err == NoError <==> !closed && whence != Unknown && 0 <= SeekBase(content, old(offset), whence) + delta <= MAX_INT64
      ensures err == NoError ==> position == offset == SeekBase(content, old(offset), whence) + delta
      ensures err != NoError ==> position == 0 && offset == old(offset) && body == old(body)
      ensures body == if offset == old(offset) then old(body) else null
      ensures err in {NoError, Closed, InvalidSeek} && (err == Closed <==> closed)
    {
      if closed {
        return 0, Closed;
      }
      var base := 0;
      match whence {
        case FromStart =>
        case FromCurrent => base := offset;
        case FromEnd => base := size;
        case Unknown => return 0, InvalidSeek;
      }
      assert Int64(-base) && Int64(MAX_INT64 - base);
      if delta < -base || delta > MAX_INT64 - base {
        return 0, InvalidSeek;
      }
      assert Int64(base + delta);
      var next := base + delta;
      if next != offset {
        CloseBody();
        offset := next;
      }
      return offset, NoError;
    }

    method Close()
      requires Valid()
      modifies this`body, this`closed
      ensures Valid() && closed && body == null
    {
      CloseBody();
      closed := true;
    }
  }

  lemma NothingRead(content: bytes, offset: nat, count: nat, err: Error)
    requires err != UnexpectedEof && (err == Eof ==> offset >= |content|)
    ensures ReadStep(content, offset, count, [], err)
  {
  }

  lemma SomethingRead(content: bytes, offset: nat, count: nat, remaining: nat, data: bytes)
    requires offset < |content| && offset + remaining <= |content| && |data| <= remaining && |data| <= count
    requires data == content[offset..offset + |data|]
    ensures forall err :: err != Eof && (err == UnexpectedEof ==> |data| < remaining) ==>
              ReadStep(content, offset, count, data, err)
  {
  }

  lemma Advanced(content: bytes, offset: nat, remaining: nat, data: bytes, rest: bytes)
    requires offset + remaining <= |content| && data + rest <= content[offset..offset + remaining]
    ensures data == content[offset..offset + |data|] && |data| + |rest| <= remaining
    ensures rest <= content[offset + |data|..offset + remaining]
  {
    var held := content[offset..offset + remaining];
    assert data == held[..|data|];
    assert (data + rest)[|data|..] == rest;
    assert held[|data|..] == content[offset + |data|..offset + remaining];
    assert forall k :: 0 <= k < |rest| ==> rest[k] == (data + rest)[|data| + k] == held[|data| + k];
  }

  // ---- any sequence of reads and seeks -----------------------------------------------------------------------------

  /** One call on a reader, as its caller sees it. */
  datatype Call = DidRead(count: nat, data: bytes, err: Error) | DidSeek(to: nat)

  /** A history of calls that starts at an offset: each read is a step over the bytes. */
  ghost predicate History(content: bytes, offset: nat, calls: seq<Call>)
    decreases |calls|
  {
    calls == []
    || match calls[0]
       case DidRead(count, data, err) =>
         ReadStep(content, offset, count, data, err) && History(content, offset + |data|, calls[1..])
       case DidSeek(to) => History(content, to, calls[1..])
  }

  /** Everything read since the last seek. */
  function Since(calls: seq<Call>): bytes
    decreases |calls|
  {
    if calls == [] then []
    else
      var last := calls[|calls| - 1];
      if last.DidSeek? then [] else Since(calls[..|calls| - 1]) + last.data
  }

  /** Where a history leaves the reader, and where its last seek left it. */
  function At(offset: nat, calls: seq<Call>): nat
    decreases |calls|
  {
    if calls == [] then offset
    else match calls[0] case DidRead(_, data, _) => At(offset + |data|, calls[1..]) case DidSeek(to) => At(to, calls[1..])
  }

  function Origin(offset: nat, calls: seq<Call>): nat
    decreases |calls|
  {
    if calls == [] then offset
    else
      var last := calls[|calls| - 1];
      if last.DidSeek? then last.to else Origin(offset, calls[..|calls| - 1])
  }

  lemma {:induction false} LastCall(content: bytes, offset: nat, calls: seq<Call>)
    requires calls != [] && History(content, offset, calls)
    ensures var front, last := calls[..|calls| - 1], calls[|calls| - 1];
            && History(content, offset, front)
            && (last.DidRead? ==> ReadStep(content, At(offset, front), last.count, last.data, last.err)
                                  && At(offset, calls) == At(offset, front) + |last.data|)
            && (last.DidSeek? ==> At(offset, calls) == last.to)
    decreases |calls|
  {
    hide ReadStep;
    var front := calls[..|calls| - 1];
    if |calls| > 1 {
      var next := match calls[0] case DidRead(_, data, _) => offset + |data| case DidSeek(to) => to;
      LastCall(content, next, calls[1..]);
      assert calls[1..][..|calls| - 2] == front[1..];
    }
  }

  /** For every history of reads and seeks: the bytes read since the last seek, put together, are the
      object's bytes from there to where the reader now stands; and when a read reports the end of the
      object, they are all the bytes there are from there on. */
  lemma {:induction false} ReadsAreTheObject(content: bytes, offset: nat, calls: seq<Call>)
    requires History(content, offset, calls)
    ensures var from: nat, to: nat := Origin(offset, calls), At(offset, calls);
            && to == from + |Since(calls)|
            && (Since(calls) != [] ==> to <= |content| && Since(calls) == content[from..to])
            && (calls != [] && calls[|calls| - 1].DidRead? && calls[|calls| - 1].err == Eof ==>
                  Since(calls) == if from <= |content| then content[from..] else [])
    decreases |calls|
  {
    hide ReadStep, History;
    if calls != [] {
      var front, last := calls[..|calls| - 1], calls[|calls| - 1];
      LastCall(content, offset, calls);
      if last.DidRead? {
        ReadsAreTheObject(content, offset, front);
        OneMore(content, Origin(offset, front), At(offset, front), Since(front), last);
      }
    }
  }

  lemma OneMore(content: bytes, from: nat, at: nat, before: bytes, last: Call)
    requires at == from + |before| && (before != [] ==> at <= |content| && before == content[from..at])
    requires last.DidRead? && ReadStep(content, at, last.count, last.data, last.err)
    ensures before + last.data != [] ==>
              at + |last.data| <= |content| && before + last.data == content[from..at + |last.data|]
    ensures last.err == Eof ==> before + last.data == if from <= |content| then content[from..] else []
  {
    Joined(content, from, at, before, last.data);
    if last.err == Eof {
      assert before + [] == before;
      if before != [] {
        assert content[from..at] == content[from..];
      }
    }
  }

  lemma Joined(content: bytes, from: nat, at: nat, before: bytes, data: bytes)
    requires at == from + |before|
    requires before != [] ==> at <= |content| && before == content[from..at]
    requires data != [] ==> at + |data| <= |content| && data == content[at..at + |data|]
    ensures before + data != [] ==> at + |data| <= |content| && before + data == content[from..at + |data|]
  {
    if data == [] {
      assert before + data == before;
    }
  }

  // ---- a reader run over a script --------------------------------------------------------------------------------------

  /** What a caller may ask of a reader. */
  datatype Ask = ToRead(count: nat, wire: Wire) | ToSeek(delta: int, whence: Whence)

  /** What the world may answer to it. */
  ghost predicate Possible(content: bytes, ask: Ask) {
    match ask case ToRead(_, wire) => Honest(content, wire.reply) case ToSeek(delta, _) => Int64(delta)
  }

  /** Where a seek leads from an offset, if it is accepted. */
  predicate Accepted(content: bytes, at: nat, closed: bool, delta: int, whence: Whence) {
    !closed && whence != Unknown && 0 <= SeekBase(content, at, whence) + delta <= MAX_INT64
  }

  /** The connection has neither ended nor failed: it reports nothing, or has been given no time to
      deliver what it still has. */
  predicate Live(wire: Wire) { wire.signal.Silent? || (wire.signal.End? && wire.take == 0) }

  /** The one call an ask leads to at an offset, if any. A read that gives nothing and no error either
      leaves a connection that lives. */
  predicate Answers(content: bytes, at: nat, closed: bool, ask: Ask, call: Option<Call>) {
    match ask
    case ToRead(count, wire) =>
      && call.Some? && call.value.DidRead? && call.value.count == count
      && (count > 0 && call.value.data == [] && call.value.err == NoError ==> Live(wire))
    case ToSeek(delta, whence) =>
      if Accepted(content, at, closed, delta, whence) then call == Some(DidSeek(SeekBase(content, at, whence) + delta))
      else call.None?
  }

  function After(at: nat, call: Call): nat { match call case DidRead(_, data, _) => at + |data| case DidSeek(to) => to }

  /** A history is that of a script: every read in it, and every seek that is accepted where it comes. */
  ghost predicate Follows(content: bytes, at: nat, closed: bool, script: seq<Ask>, calls: seq<Call>)
    decreases |script|
  {
    if script == [] then calls == []
    else if Answers(content, at, closed, script[0], None) then Follows(content, at, closed, script[1..], calls)
    else
      && calls != [] && Answers(content, at, closed, script[0], Some(calls[0]))
      && Follows(content, After(at, calls[0]), closed, script[1..], calls[1..])
  }

  lemma {:induction false} FollowsGrows(content: bytes, at: nat, closed: bool, script: seq<Ask>, calls: seq<Call>, ask: Ask,
                                        call: Option<Call>)
    requires Follows(content, at, closed, script, calls) && Answers(content, At(at, calls), closed, ask, call)
    ensures Follows(content, at, closed, script + [ask], if call.Some? then calls + [call.value] else calls)
    decreases |script|
  {
    hide Accepted;
    var all, more := script + [ask], if call.Some? then calls + [call.value] else calls;
    if script == [] {
      assert all[1..] == [] && (call.Some? ==> more[1..] == []);
    } else {
      assert all[1..] == script[1..] + [ask] && all[0] == script[0];
      if Answers(content, at, closed, script[0], None) {
        FollowsGrows(content, at, closed, script[1..], calls, ask, call);
      } else {
        assert call.Some? ==> more[1..] == calls[1..] + [call.value];
        FollowsGrows(content, After(at, calls[0]), closed, script[1..], calls[1..], ask, call);
      }
    }
  }

  lemma {:induction false} HistoryGrows(content: bytes, offset: nat, calls: seq<Call>, call: Call)
    requires History(content, offset, calls)
    requires call.DidRead? ==> ReadStep(content, At(offset, calls), call.count, call.data, call.err)
    ensures History(content, offset, calls + [call])
    ensures At(offset, calls + [call]) == After(At(offset, calls), call)
    decreases |calls|
  {
    hide ReadStep;
    if calls == [] {
      assert calls + [call] == [call] && [call][1..] == [];
    } else {
      var next := After(offset, calls[0]);
      assert (calls + [call])[1..] == calls[1..] + [call] && (calls + [call])[0] == calls[0];
      HistoryGrows(content, next, calls[1..], call);
    }
  }

  /** Any reads and seeks on a reader, one after the other, are a history of its object that follows the
      script: so what was read since the last accepted seek is the object from there to where the
      reader stands. */
  method RunScript(r: Reader, script: seq<Ask>) returns (calls: seq<Call>)
    requires r.Valid() && forall a :: a in script ==> Possible(r.content, a)
    modifies r, r.body
    ensures r.Valid() && r.closed == old(r.closed)
    ensures Follows(r.content, old(r.offset), r.closed, script, calls)
    ensures History(r.content, old(r.offset), calls) && r.offset == At(old(r.offset), calls)
    ensures var from := Origin(old(r.offset), calls);
            r.offset == from + |Since(calls)|
            && (Since(calls) != [] ==> r.offset <= |r.content| && Since(calls) == r.content[from..r.offset])
  {
    hide History, ReadStep, Honest, At, Origin, Since, Follows;
    ghost var start: nat, closed := r.offset, r.closed;
    calls := [];
    NoCalls(r.content, start, closed);
    for i := 0 to |script|
      invariant r.Valid() && r.closed == closed
      invariant r.body == null || r.body == old(r.body) || fresh(r.body)
      invariant History(r.content, start, calls) && r.offset == At(start, calls)
      invariant Follows(r.content, start, closed, script[..i], calls)
    {
      assert script[i] in script && script[..i + 1] == script[..i] + [script[i]];
      ghost var before := calls;
      match script[i] {
        case ToRead(count, wire) =>
          var data, err := r.Read(count, wire);
          HistoryGrows(r.content, start, calls, DidRead(count, data, err));
          calls := calls + [DidRead(count, data, err)];
          FollowsGrows(r.content, start, closed, script[..i], before, script[i], Some(DidRead(count, data, err)));
        case ToSeek(delta, whence) =>
          var position, err := r.Seek(delta, whence);
          if err == NoError {
            HistoryGrows(r.content, start, calls, DidSeek(position));
            calls := calls + [DidSeek(position)];
          }
          FollowsGrows(r.content, start, closed, script[..i], before, script[i],
                       if err == NoError then Some(DidSeek(position)) else None);
      }
    }
    assert script[..|script|] == script;
    ReadsAreTheObject(r.content, start, calls);
  }

  lemma NoCalls(content: bytes, offset: nat, closed: bool)
    ensures History(content, offset, []) && At(offset, []) == offset && Follows(content, offset, closed, [], [])
  {
  }
}
