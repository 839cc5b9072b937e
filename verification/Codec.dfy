/**
 The length-prefixed frame codec of the TCP transport.  A frame is a 4-byte little-endian body length
 followed by the encoded message.  The message encoding itself is a parameter: a pair of functions
 `Format(enc, dec)`.
 */
module Codec {
  import opened Wrappers
  import opened Net

  const HEADER_SIZE: nat := 4
  const DEFAULT_MAX_FRAME_SIZE: nat := 1024 * 1024

  datatype Format<!M> = Format(enc: M -> seq<Byte>, dec: seq<Byte> -> Option<M>) {

    /** Decoding undoes encoding. */
    ghost predicate Sound(m: M) {
      dec(enc(m)) == Some(m)
    }
  }

  datatype Error = FrameTooLarge | DataTooLarge | BadMessage

  datatype DecodeState = Head | Body(dataLen: nat)

  /** What one call of `decode` returns: a message, a request for more bytes, or an error. */
  datatype Outcome<M> = NeedMore | Decoded(msg: M) | Failed(error: Error)

  // ---------------------------------------------------------------------------
  // The 4-byte header
  // ---------------------------------------------------------------------------

  /** `put_u32_le(n as u32)`: the cast keeps the low 32 bits. */
  function PutU32Le(n: nat): (h: seq<Byte>)
    ensures |h| == HEADER_SIZE
  {
    [n % 256, n / 0x100 % 256, n / 0x1_0000 % 256, n / 0x100_0000 % 256]
  }

  function GetU32Le(h: seq<Byte>): (n: nat)
    requires |h| >= HEADER_SIZE
    ensures n < U32_SIZE
  {
    h[0] as int + 0x100 * h[1] as int + 0x1_0000 * h[2] as int + 0x100_0000 * h[3] as int
  }

  lemma HeaderRoundTrip(n: nat)
    ensures GetU32Le(PutU32Le(n)) == n % U32_SIZE
  {
    var a, b, c := n / 0x100, n / 0x1_0000, n / 0x100_0000;
    assert n == 0x100 * a + n % 0x100;
    assert b == a / 0x100 && a == 0x100 * b + a % 0x100;
    assert c == b / 0x100 && b == 0x100 * c + b % 0x100;
    assert n / U32_SIZE == c / 0x100 && c == 0x100 * (c / 0x100) + c % 0x100;
  }

  lemma HeaderInverse(h: seq<Byte>)
    requires |h| == HEADER_SIZE
    ensures PutU32Le(GetU32Le(h)) == h
  {
    var n := GetU32Le(h);
    var a: int := h[1] as int + 0x100 * h[2] as int + 0x1_0000 * h[3] as int;
    var b: int := h[2] as int + 0x100 * h[3] as int;
    assert n == 0x100 * a + h[0] && n / 0x100 == a;
    assert a == 0x100 * b + h[1] && n / 0x1_0000 == b;
    assert n / 0x100_0000 == h[3];
  }

  /** The first four bytes are the number, least significant byte first. */
  predicate LittleEndian(bytes: seq<Byte>, n: nat) {
    && |bytes| >= 4
    && n == bytes[0] as int + 256 * bytes[1] as int + 65536 * bytes[2] as int + 16777216 * bytes[3] as int
  }

  /** The header is little-endian, written modulo 2^32 and read as it stands. */
  lemma HeaderIsLittleEndian(n: nat, bytes: seq<Byte>, m: nat)
    ensures |PutU32Le(n)| == 4 && LittleEndian(PutU32Le(n), n % 0x1_0000_0000)
    ensures |bytes| >= 4 ==> (GetU32Le(bytes) == m <==> LittleEndian(bytes, m))
  {
    HeaderRoundTrip(n);
  }

  // ---------------------------------------------------------------------------
  // The reference: frames of a byte string, without state
  // ---------------------------------------------------------------------------

  /** All messages up to the first error or the first incomplete frame, and what is left. */
  datatype Parsed<M> = Parsed(msgs: seq<M>, error: Option<Error>, rest: seq<Byte>) {

    function Then(m: M): Parsed<M> {
      Parsed([m] + msgs, error, rest)
    }
  }

  /** How a byte string begins. */
  datatype First<M> =
    | Incomplete
    | Oversized(tail: seq<Byte>)
    | Undecodable(tail: seq<Byte>)
    | Message(msg: M, tail: seq<Byte>)

  function FirstFrame<M>(fmt: Format<M>, max: nat, bytes: seq<Byte>): (f: First<M>)
    ensures !f.Incomplete? ==> |f.tail| < |bytes|
  {
    if |bytes| < HEADER_SIZE then Incomplete
    else
      var n := GetU32Le(bytes);
      if n > max then Oversized(bytes[HEADER_SIZE..])
      else if |bytes| < HEADER_SIZE + n then Incomplete
      else
        match fmt.dec(bytes[HEADER_SIZE..HEADER_SIZE + n])
        case None => Undecodable(bytes[HEADER_SIZE + n..])
        case Some(m) => Message(m, bytes[HEADER_SIZE + n..])
  }

  function Parse<M>(fmt: Format<M>, max: nat, bytes: seq<Byte>): Parsed<M>
    decreases |bytes|
  {
    match FirstFrame(fmt, max, bytes)
    case Incomplete => Parsed([], None, bytes)
    case Oversized(tail) => Parsed([], Some(DataTooLarge), tail)
    case Undecodable(tail) => Parsed([], Some(BadMessage), tail)
    case Message(m, tail) => Parse(fmt, max, tail).Then(m)
  }

  // ---------------------------------------------------------------------------
  // The resumable decoder
  // ---------------------------------------------------------------------------

  datatype Call<M> = Call(outcome: Outcome<M>, state: DecodeState, buf: seq<Byte>)

  /** One call of `decode` on the buffer `buf` in state `state`. */
  function Decode<M>(fmt: Format<M>, max: nat, state: DecodeState, buf: seq<Byte>): Call<M>
    decreases if state.Head? then 1 else 0
  {
    match state
    case Head =>
      if |buf| < HEADER_SIZE then Call(NeedMore, Head, buf)
      else if GetU32Le(buf) > max then Call(Failed(DataTooLarge), Head, buf[HEADER_SIZE..])
      else Decode(fmt, max, Body(GetU32Le(buf)), buf[HEADER_SIZE..])
    case Body(n) =>
      if |buf| < n then Call(NeedMore, state, buf)
      else
        match fmt.dec(buf[..n])
        case None => Call(Failed(BadMessage), Head, buf[n..])
        case Some(m) => Call(Decoded(m), Head, buf[n..])
  }

  /** What a decoder that knows the body's length `n` does with the bytes after the header. */
  ghost predicate DecodesBody<M>(fmt: Format<M>, n: nat, bytes: seq<Byte>, c: Call<M>) {
    if |bytes| < n then c.outcome.NeedMore? && c.state.Body? && c.state.dataLen == n && c.buf == bytes
    else
      && c.state.Head? && c.buf == bytes[n..]
      && (match fmt.dec(bytes[..n])
          case None => c.outcome.Failed? && c.outcome.error == BadMessage
          case Some(m) => c.outcome.Decoded? && c.outcome.msg == m)
  }

  /** What one call of the decoder does: it waits for four bytes, takes them as a little-endian length, refuses
      a length over the limit, waits for that many bytes and decodes them. */
  ghost predicate Decodes<M>(fmt: Format<M>, max: nat, state: DecodeState, bytes: seq<Byte>, c: Call<M>) {
    match state
    case Body(n) => DecodesBody(fmt, n, bytes, c)
    case Head =>
      if |bytes| < 4 then c.outcome.NeedMore? && c.state.Head? && c.buf == bytes
      else
        exists n: nat ::
          && LittleEndian(bytes, n)
          && (n > max ==> c.outcome.Failed? && c.outcome.error == DataTooLarge && c.state.Head? && c.buf == bytes[4..])
          && (n <= max ==> DecodesBody(fmt, n, bytes[4..], c))
  }

  lemma DecodeDecodes<M>(fmt: Format<M>, max: nat, state: DecodeState, buf: seq<Byte>)
    ensures Decodes(fmt, max, state, buf, Decode(fmt, max, state, buf))
  {
    if state.Head? && |buf| >= 4 {
      var n := GetU32Le(buf);
      HeaderIsLittleEndian(n, buf, n);
      assert LittleEndian(buf, n);
    }
  }

  /** The states a decoder can be left in between calls. */
  predicate Resumable(max: nat, state: DecodeState) {
    state.Body? ==> 1 <= state.dataLen <= max && state.dataLen < U32_SIZE
  }

  /** The bytes a state and a buffer stand for: a `Body` state has taken its header off. */
  function Logical(state: DecodeState, buf: seq<Byte>): seq<Byte> {
    if state.Head? then buf else PutU32Le(state.dataLen) + buf
  }

  /** Every decoded message consumes at least one buffered byte; a decoder that asks for more holds
      less than the pending body, or less than a header; errors leave the state `Head`. */
  lemma DecodeProgress<M>(fmt: Format<M>, max: nat, state: DecodeState, buf: seq<Byte>)
    requires Resumable(max, state)
    ensures var c := Decode(fmt, max, state, buf);
            && Resumable(max, c.state)
            && (c.outcome.Decoded? ==> |c.buf| < |buf| && c.state.Head?)
            && (c.outcome.Failed? ==> |c.buf| < |buf| && c.state.Head?)
            && (c.outcome.NeedMore? ==> |c.buf| < if c.state.Head? then HEADER_SIZE else c.state.dataLen)
  {
  }

  /** What `c` must be when the logical bytes begin as `f` says. */
  ghost predicate Takes<M>(c: Call<M>, f: First<M>, logical: seq<Byte>) {
    match f
    case Incomplete => c.outcome.NeedMore? && Logical(c.state, c.buf) == logical
    case Oversized(tail) => c == Call(Failed(DataTooLarge), Head, tail)
    case Undecodable(tail) => c == Call(Failed(BadMessage), Head, tail)
    case Message(m, tail) => c == Call(Decoded(m), Head, tail)
  }

  lemma HeaderOfFrame(n: nat, buf: seq<Byte>)
    requires n < U32_SIZE
    ensures GetU32Le(PutU32Le(n) + buf) == n
  {
    HeaderRoundTrip(n);
    var h := PutU32Le(n);
    assert (h + buf)[0] == h[0] && (h + buf)[1] == h[1] && (h + buf)[2] == h[2] && (h + buf)[3] == h[3];
  }

  /** How a byte string with a given header begins. */
  lemma FirstAfterHeader<M>(fmt: Format<M>, max: nat, h: seq<Byte>, n: nat, buf: seq<Byte>)
    requires |h| == HEADER_SIZE && GetU32Le(h + buf) == n <= max
    ensures FirstFrame(fmt, max, h + buf) ==
      if |buf| < n then Incomplete
      else match fmt.dec(buf[..n]) case None => Undecodable(buf[n..]) case Some(m) => Message(m, buf[n..])
  {
    if |buf| >= n {
      assert (h + buf)[HEADER_SIZE..HEADER_SIZE + n] == buf[..n];
      assert (h + buf)[HEADER_SIZE + n..] == buf[n..];
    }
  }

  lemma BodyIsFirstFrame<M>(fmt: Format<M>, max: nat, n: nat, buf: seq<Byte>)
    requires n <= max && n < U32_SIZE
    ensures var l := PutU32Le(n) + buf;
            Takes(Decode(fmt, max, Body(n), buf), FirstFrame(fmt, max, l), l)
  {
    HeaderOfFrame(n, buf);
    FirstAfterHeader(fmt, max, PutU32Le(n), n, buf);
  }

  /** One call of the decoder takes the first frame off the logical bytes, if it is complete. */
  lemma DecodeIsFirstFrame<M>(fmt: Format<M>, max: nat, state: DecodeState, buf: seq<Byte>)
    requires Resumable(max, state)
    ensures Takes(Decode(fmt, max, state, buf), FirstFrame(fmt, max, Logical(state, buf)), Logical(state, buf))
  {
    if state.Body? {
      BodyIsFirstFrame(fmt, max, state.dataLen, buf);
    } else if |buf| >= HEADER_SIZE {
      var n := GetU32Le(buf);
      assert PutU32Le(n) + buf[HEADER_SIZE..] == buf by {
        HeaderInverse(buf[..HEADER_SIZE]);
        assert GetU32Le(buf[..HEADER_SIZE]) == n;
        assert buf == buf[..HEADER_SIZE] + buf[HEADER_SIZE..];
      }
      if n <= max { BodyIsFirstFrame(fmt, max, n, buf[HEADER_SIZE..]); }
    }
  }

  datatype Drained<M> = Drained(msgs: seq<M>, error: Option<Error>, state: DecodeState, buf: seq<Byte>)

  /** Calling `decode` until it asks for more bytes or fails. */
  function Drain<M>(fmt: Format<M>, max: nat, state: DecodeState, buf: seq<Byte>): Drained<M>
    requires Resumable(max, state)
    decreases |buf|
  {
    DecodeProgress(fmt, max, state, buf);
    var c := Decode(fmt, max, state, buf);
    match c.outcome
    case NeedMore => Drained([], None, c.state, c.buf)
    case Failed(e) => Drained([], Some(e), c.state, c.buf)
    case Decoded(m) =>
      var d := Drain(fmt, max, c.state, c.buf);
      d.(msgs := [m] + d.msgs)
  }

  /** One drain is the reference parser on the logical bytes. */
  lemma {:induction false} DrainIsParse<M>(fmt: Format<M>, max: nat, state: DecodeState, buf: seq<Byte>)
    requires Resumable(max, state)
    ensures var d := Drain(fmt, max, state, buf);
            var p := Parse(fmt, max, Logical(state, buf));
            && d.msgs == p.msgs && d.error == p.error && Logical(d.state, d.buf) == p.rest
            && Resumable(max, d.state) && (d.error.Some? ==> d.state.Head?)
    decreases |buf|
  {
    DecodeProgress(fmt, max, state, buf);
    DecodeIsFirstFrame(fmt, max, state, buf);
    var c := Decode(fmt, max, state, buf);
    if c.outcome.Decoded? { DrainIsParse(fmt, max, c.state, c.buf); }
  }

  // ---------------------------------------------------------------------------
  // Reading a stream chunk by chunk
  // ---------------------------------------------------------------------------

  function Flatten(chunks: seq<seq<Byte>>): seq<Byte> {
    if chunks == [] then [] else chunks[0] + Flatten(chunks[1..])
  }

  datatype Read<M> = Read(msgs: seq<M>, error: Option<Error>, state: DecodeState, buf: seq<Byte>, unread: seq<seq<Byte>>) {

    /** Everything of the stream that has not become a message or an error. */
    function Remainder(): seq<Byte> {
      Logical(state, buf) + Flatten(unread)
    }
  }

  /** The framed reader: append each chunk to the buffer, drain, and give up at the first error. */
  function ReadChunks<M>(fmt: Format<M>, max: nat, state: DecodeState, buf: seq<Byte>, chunks: seq<seq<Byte>>): Read<M>
    requires Resumable(max, state)
    decreases |chunks|
  {
    if chunks == [] then Read([], None, state, buf, [])
    else
      DrainIsParse(fmt, max, state, buf + chunks[0]);
      var d := Drain(fmt, max, state, buf + chunks[0]);
      if d.error.Some? then Read(d.msgs, d.error, d.state, d.buf, chunks[1..])
      else
        var r := ReadChunks(fmt, max, d.state, d.buf, chunks[1..]);
        r.(msgs := d.msgs + r.msgs)
  }

  /** Bytes appended after a complete first frame do not change it. */
  lemma FirstFrameExtends<M>(fmt: Format<M>, max: nat, a: seq<Byte>, b: seq<Byte>)
    ensures match FirstFrame(fmt, max, a)
            case Incomplete => true
            case Oversized(tail) => FirstFrame(fmt, max, a + b) == Oversized(tail + b)
            case Undecodable(tail) => FirstFrame(fmt, max, a + b) == Undecodable(tail + b)
            case Message(m, tail) => FirstFrame(fmt, max, a + b) == Message(m, tail + b)
  {
    if |a| >= HEADER_SIZE {
      var n := GetU32Le(a);
      assert GetU32Le(a + b) == n;
      assert (a + b)[HEADER_SIZE..] == a[HEADER_SIZE..] + b;
      if |a| >= HEADER_SIZE + n {
        assert (a + b)[HEADER_SIZE..HEADER_SIZE + n] == a[HEADER_SIZE..HEADER_SIZE + n];
        assert (a + b)[HEADER_SIZE + n..] == a[HEADER_SIZE + n..] + b;
      }
    }
  }

  /** Parsing can stop anywhere and be resumed with the bytes left over. */
  lemma {:induction false} ParseResumes<M>(fmt: Format<M>, max: nat, a: seq<Byte>, b: seq<Byte>)
    ensures var p := Parse(fmt, max, a);
            var q := Parse(fmt, max, p.rest + b);
            Parse(fmt, max, a + b) ==
              if p.error.Some? then Parsed(p.msgs, p.error, p.rest + b)
              else Parsed(p.msgs + q.msgs, q.error, q.rest)
    decreases |a|
  {
    FirstFrameExtends(fmt, max, a, b);
    var p := Parse(fmt, max, a);
    var q := Parse(fmt, max, p.rest + b);
    match FirstFrame(fmt, max, a)
    case Incomplete => assert [] + q.msgs == q.msgs;
    case Oversized(_) =>
    case Undecodable(_) =>
    case Message(m, tail) =>
      ParseResumes(fmt, max, tail, b);
      ConcatAssoc([m], Parse(fmt, max, tail).msgs, q.msgs);
  }

  /** What parsing leaves over holds no further frame. */
  lemma {:induction false} RestIsIncomplete<M>(fmt: Format<M>, max: nat, a: seq<Byte>)
    ensures var p := Parse(fmt, max, a);
            p.error.None? ==> Parse(fmt, max, p.rest) == Parsed([], None, p.rest)
    decreases |a|
  {
    var first := FirstFrame(fmt, max, a);
    if first.Message? { RestIsIncomplete(fmt, max, first.tail); }
  }

  lemma {:induction false} ReadFromState<M>(fmt: Format<M>, max: nat, state: DecodeState, buf: seq<Byte>, chunks: seq<seq<Byte>>)
    requires Resumable(max, state)
    requires Parse(fmt, max, Logical(state, buf)) == Parsed([], None, Logical(state, buf))
    ensures var r := ReadChunks(fmt, max, state, buf, chunks);
            var p := Parse(fmt, max, Logical(state, buf) + Flatten(chunks));
            r.msgs == p.msgs && r.error == p.error && r.Remainder() == p.rest
    decreases |chunks|
  {
    var l := Logical(state, buf);
    if chunks == [] {
      assert l + Flatten(chunks) == l;
    } else {
      var a, f := l + chunks[0], Flatten(chunks[1..]);
      assert l + Flatten(chunks) == a + f;
      DrainLogical(fmt, max, state, buf, chunks[0]);
      ParseResumes(fmt, max, a, f);
      var d := Drain(fmt, max, state, buf + chunks[0]);
      if d.error.None? {
        RestIsIncomplete(fmt, max, a);
        ReadFromState(fmt, max, d.state, d.buf, chunks[1..]);
      }
    }
  }

  lemma LogicalAppend(state: DecodeState, buf: seq<Byte>, chunk: seq<Byte>)
    ensures Logical(state, buf + chunk) == Logical(state, buf) + chunk
  {
    if state.Body? { ConcatAssoc(PutU32Le(state.dataLen), buf, chunk); }
  }

  lemma ConcatAssoc<T>(a: seq<T>, b: seq<T>, c: seq<T>)
    ensures a + (b + c) == a + b + c
  {
  }

  lemma DrainLogical<M>(fmt: Format<M>, max: nat, state: DecodeState, buf: seq<Byte>, chunk: seq<Byte>)
    requires Resumable(max, state)
    ensures var d := Drain(fmt, max, state, buf + chunk);
            var p := Parse(fmt, max, Logical(state, buf) + chunk);
            d.msgs == p.msgs && d.error == p.error && Logical(d.state, d.buf) == p.rest && Resumable(max, d.state)
  {
    LogicalAppend(state, buf, chunk);
    DrainIsParse(fmt, max, state, buf + chunk);
  }

  /** Decoding does not depend on how the stream was cut into reads: any split gives the messages,
      the first error and the remainder of the one-shot parser. */
  lemma ChunkingIsIrrelevant<M>(fmt: Format<M>, max: nat, chunks: seq<seq<Byte>>)
    ensures var r := ReadChunks(fmt, max, Head, [], chunks);
            var p := Parse(fmt, max, Flatten(chunks));
            r.msgs == p.msgs && r.error == p.error && r.Remainder() == p.rest
  {
    ReadFromState(fmt, max, Head, [], chunks);
    assert Logical(Head, []) + Flatten(chunks) == Flatten(chunks);
  }

  /** While no error has occurred, the buffer between reads stays below the larger of a header and the
      frame limit, whatever arrived; a pending body is never complete. */
  lemma {:induction false} BufferIsBounded<M>(fmt: Format<M>, max: nat, state: DecodeState, buf: seq<Byte>, chunks: seq<seq<Byte>>)
    requires Resumable(max, state)
    requires |buf| < if state.Head? then HEADER_SIZE else state.dataLen
    ensures var r := ReadChunks(fmt, max, state, buf, chunks);
            r.error.None? ==>
              && (r.state.Head? ==> |r.buf| < HEADER_SIZE)
              && (r.state.Body? ==> |r.buf| < r.state.dataLen <= max)
    decreases |chunks|
  {
    if chunks != [] {
      var d := Drain(fmt, max, state, buf + chunks[0]);
      DrainIsParse(fmt, max, state, buf + chunks[0]);
      DrainedBuffer(fmt, max, state, buf + chunks[0]);
      if d.error.None? { BufferIsBounded(fmt, max, d.state, d.buf, chunks[1..]); }
    }
  }

  lemma {:induction false} DrainedBuffer<M>(fmt: Format<M>, max: nat, state: DecodeState, buf: seq<Byte>)
    requires Resumable(max, state)
    ensures var d := Drain(fmt, max, state, buf);
            d.error.None? ==> |d.buf| < if d.state.Head? then HEADER_SIZE else d.state.dataLen
    decreases |buf|
  {
    DecodeProgress(fmt, max, state, buf);
    var c := Decode(fmt, max, state, buf);
    if c.outcome.Decoded? { DrainedBuffer(fmt, max, c.state, c.buf); }
  }

  // ---------------------------------------------------------------------------
  // Encoding, and the round trip
  // ---------------------------------------------------------------------------

  /** The encoder bounds header and body together. */
  predicate Accepts<M>(fmt: Format<M>, max: nat, m: M) {
    HEADER_SIZE + |fmt.enc(m)| <= max
  }

  function Frame<M>(fmt: Format<M>, m: M): seq<Byte> {
    PutU32Le(|fmt.enc(m)|) + fmt.enc(m)
  }

  function Frames<M>(fmt: Format<M>, ms: seq<M>): seq<Byte> {
    if ms == [] then [] else Frame(fmt, ms[0]) + Frames(fmt, ms[1..])
  }

  /** The first frame of a stream, when its length fits the header. */
  lemma ParseFrame<M>(fmt: Format<M>, max: nat, m: M, tail: seq<Byte>)
    requires fmt.Sound(m) && Accepts(fmt, max, m) && |fmt.enc(m)| < U32_SIZE
    ensures Parse(fmt, max, Frame(fmt, m) + tail) == Parse(fmt, max, tail).Then(m)
  {
    var n, body := |fmt.enc(m)|, fmt.enc(m) + tail;
    assert Frame(fmt, m) + tail == PutU32Le(n) + body;
    assert body[..n] == fmt.enc(m) && body[n..] == tail;
    BodyIsFirstFrame(fmt, max, n, body);
  }

  lemma {:induction false} ParseFrames<M>(fmt: Format<M>, max: nat, ms: seq<M>)
    requires forall m :: m in ms ==> fmt.Sound(m) && Accepts(fmt, max, m) && |fmt.enc(m)| < U32_SIZE
    ensures Parse(fmt, max, Frames(fmt, ms)) == Parsed(ms, None, [])
  {
    if ms != [] {
      ParseFrame(fmt, max, ms[0], Frames(fmt, ms[1..]));
      ParseFrames(fmt, max, ms[1..]);
      assert [ms[0]] + ms[1..] == ms;
    }
  }

  /** Every list of messages that the encoder accepts under a limit fitting the 32-bit header is
      decoded back from its concatenated frames, cut at any points, leaving a clean decoder. */
  lemma StreamRoundTrip<M>(fmt: Format<M>, max: nat, ms: seq<M>, chunks: seq<seq<Byte>>)
    requires max < U32_SIZE + HEADER_SIZE
    requires forall m :: m in ms ==> fmt.Sound(m) && Accepts(fmt, max, m)
    requires Flatten(chunks) == Frames(fmt, ms)
    ensures ReadChunks(fmt, max, Head, [], chunks) == Read(ms, None, Head, [], [])
  {
    ParseFrames(fmt, max, ms);
    ChunkingIsIrrelevant(fmt, max, chunks);
    ReadWithoutErrorReadsAll(fmt, max, Head, [], chunks);
  }

  lemma {:induction false} ReadWithoutErrorReadsAll<M>(fmt: Format<M>, max: nat, state: DecodeState, buf: seq<Byte>, chunks: seq<seq<Byte>>)
    requires Resumable(max, state)
    ensures var r := ReadChunks(fmt, max, state, buf, chunks);
            r.error.None? ==> r.unread == []
    decreases |chunks|
  {
    if chunks != [] {
      var d := Drain(fmt, max, state, buf + chunks[0]);
      DrainIsParse(fmt, max, state, buf + chunks[0]);
      if d.error.None? { ReadWithoutErrorReadsAll(fmt, max, d.state, d.buf, chunks[1..]); }
    }
  }

  /** A byte string that is not empty cannot parse to nothing at all. */
  lemma NonEmptyLeavesTrace<M>(fmt: Format<M>, max: nat, bytes: seq<Byte>)
    requires bytes != []
    ensures Parse(fmt, max, bytes) != Parsed([], None, [])
  {
  }

  /** Under larger limits the header truncates: an accepted message survives the round trip exactly
      when its encoding is shorter than 2^32 bytes. */
  lemma RoundTripIffLengthFits<M>(fmt: Format<M>, max: nat, m: M)
    requires fmt.Sound(m) && Accepts(fmt, max, m)
    ensures Parse(fmt, max, Frame(fmt, m)) == Parsed([m], None, []) <==> |fmt.enc(m)| < U32_SIZE
  {
    var n := |fmt.enc(m)|;
    var bytes := Frame(fmt, m);
    if n < U32_SIZE {
      ParseFrames(fmt, max, [m]);
      assert Frames(fmt, [m]) == bytes;
    } else {
      HeaderRoundTrip(n);
      var k := n % U32_SIZE;
      assert GetU32Le(bytes) == k < n;
      var tail := bytes[HEADER_SIZE + k..];
      NonEmptyLeavesTrace(fmt, max, tail);
      if fmt.dec(bytes[HEADER_SIZE..HEADER_SIZE + k]).Some? {
        var p := Parse(fmt, max, tail);
        assert |p.msgs| == 0 ==> p.msgs == [];
        assert |Parse(fmt, max, bytes).msgs| == 1 + |p.msgs|;
      }
    }
  }

  /** The encoding of a message that is its own bytes. */
  const PLAIN: Format<seq<Byte>> := Format(m => m, bytes => Some(bytes))

  /** The encoder accepts a message of 2^32 bytes under a limit that allows it, and its frame, whose
      header says zero, does not decode to it. */
  lemma LongMessageIsLost()
    ensures var m: seq<Byte> := seq(U32_SIZE, _ => 0);
            && PLAIN.Sound(m) && Accepts(PLAIN, HEADER_SIZE + U32_SIZE, m)
            && Parse(PLAIN, HEADER_SIZE + U32_SIZE, Frame(PLAIN, m)) != Parsed([m], None, [])
  {
    RoundTripIffLengthFits(PLAIN, HEADER_SIZE + U32_SIZE, seq(U32_SIZE, _ => 0));
  }
}
