/** The codec object: a decoder state that survives between calls, and buffers changed in place. */
module ByteCodec {
  import opened Wrappers
  import opened Net
  import opened Codec

  class BytesMut {
    var data: seq<Byte>

    constructor (data: seq<Byte>)
      ensures this.data == data
    {
      this.data := data;
    }

    method GetU32() returns (n: nat)
      requires |data| >= HEADER_SIZE
      modifies this
      ensures n == GetU32Le(old(data)) && data == old(data)[HEADER_SIZE..]
    {
      n := GetU32Le(data);
      data := data[HEADER_SIZE..];
    }

    method SplitTo(n: nat) returns (front: seq<Byte>)
      requires n <= |data|
      modifies this
      ensures old(data) == front + data && |front| == n
    {
      front := data[..n];
      data := data[n..];
    }
  }

  class ByteCodec<!M> {
    const format: Format<M>
    const maxFrameSize: nat
    var state: DecodeState

    constructor (format: Format<M>, maxFrameSize: nat)
      ensures state == Head && this.format == format && this.maxFrameSize == maxFrameSize
    {
      this.format, this.maxFrameSize, state := format, maxFrameSize, Head;
    }

    constructor New(format: Format<M>)
      ensures state == Head && this.format == format && this.maxFrameSize == 1_048_576
    {
      this.format, maxFrameSize, state := format, DEFAULT_MAX_FRAME_SIZE, Head;
    }

    /** Appends one frame, or appends nothing and fails when header and body exceed the limit. */
    method Encode(item: M, dst: BytesMut) returns (r: Result<(), Error>)
      modifies dst
      ensures r == if Accepts(format, maxFrameSize, item) then Ok(()) else Err(FrameTooLarge)
      ensures dst.data == if r.Ok? then old(dst.data) + Frame(format, item) else old(dst.data)
      ensures r.Ok? <==> 4 + |format.enc(item)| <= maxFrameSize
      ensures r.Ok? ==>
                exists header: seq<Byte> ::
                  && |header| == 4 && LittleEndian(header, |format.enc(item)| % 0x1_0000_0000)
                  && dst.data == old(dst.data) + header + format.enc(item)
    {
      var body := format.enc(item);
      if HEADER_SIZE + |body| > maxFrameSize {
        return Err(FrameTooLarge);
      }
      ghost var header := PutU32Le(|body|);
      HeaderIsLittleEndian(|body|, [], 0);
      dst.data := dst.data + PutU32Le(|body|);
      dst.data := dst.data + body;
      assert dst.data == old(dst.data) + header + body;
      assert dst.data == old(dst.data) + Frame(format, item);
      r := Ok(());
    }

    /** One call of the decoder; it calls itself at most once, from `Head` to `Body`. */
    method DecodeNext(src: BytesMut) returns (r: Outcome<M>)
      modifies this, src
      ensures Call(r, state, src.data) == Decode(format, maxFrameSize, old(state), old(src.data))
      ensures Decodes(format, maxFrameSize, old(state), old(src.data), Call(r, state, src.data))
      ensures Resumable(maxFrameSize, old(state)) ==>
                && Resumable(maxFrameSize, state)
                && (!r.NeedMore? ==> state.Head? && |src.data| < |old(src.data)|)
                && Takes(Call(r, state, src.data),
                         FirstFrame(format, maxFrameSize, Logical(old(state), old(src.data))),
                         Logical(old(state), old(src.data)))
      decreases if state.Head? then 1 else 0
    {
      DecodeDecodes(format, maxFrameSize, state, src.data);
      if Resumable(maxFrameSize, state) {
        DecodeProgress(format, maxFrameSize, state, src.data);
        DecodeIsFirstFrame(format, maxFrameSize, state, src.data);
      }
      match state
      case Head =>
        if |src.data| < HEADER_SIZE {
          return NeedMore;
        }
        var dataLen := src.GetU32();
        if dataLen > maxFrameSize {
          return Failed(DataTooLarge);
        }
        state := Body(dataLen);
        r := DecodeNext(src);
      case Body(dataLen) =>
        if |src.data| < dataLen {
          return NeedMore;
        }
        ghost var before := src.data;
        var data := src.SplitTo(dataLen);
        assert data == before[..dataLen] && src.data == before[dataLen..];
        state := Head;
        match format.dec(data)
        case None => r := Failed(BadMessage);
        case Some(m) => r := Decoded(m);
    }
  }
}
