/** TCP framing: a 32-bit big-endian length in front of each wire frame. */
module TcpFraming {
  import opened Common
  import opened WireCodec
  import opened WireBuffer

  const MAX_FRAME: nat := 4 * 1024 * 1024

  datatype TcpError = FrameTooLarge | EndOfStream | Wire(error: WireError)

  function Framed(e: Envelope): Bytes {
    BE(4, |EncodeFrame(e)|) + EncodeFrame(e)
  }

  /** One frame off the front of the stream, for a receiver with a buffer of the given size. */
  function ReceiveOne(stream: Bytes, buffer: nat): Result<(Envelope, Bytes), TcpError> {
    if |stream| < 4 then Err(EndOfStream)
    else
      var len := Value(stream[..4]);
      if len > buffer || len > MAX_FRAME then Err(FrameTooLarge)
      else if |stream| - 4 < len then Err(EndOfStream)
      else
        match DecodeFrame(stream[4..4 + len])
        case Err(e) => Err(Wire(e))
        case Ok(e) => Ok((e, stream[4 + len..]))
  }

  function ReceiveMany(stream: Bytes, buffer: nat, n: nat): Result<(seq<Envelope>, Bytes), TcpError>
    decreases n
  {
    if n == 0 then Ok(([], stream))
    else
      match ReceiveOne(stream, buffer)
      case Err(e) => Err(e)
      case Ok((first, rest)) =>
        match ReceiveMany(rest, buffer, n - 1)
        case Err(e) => Err(e)
        case Ok((more, left)) => Ok(([first] + more, left))
  }

  function Stream(es: seq<Envelope>): Bytes {
    if es == [] then [] else Framed(es[0]) + Stream(es[1..])
  }

  /** The receiver can take the envelope. */
  ghost predicate Receivable(e: Envelope, buffer: nat) {
    Sendable(e) && |EncodeFrame(e)| <= buffer && |EncodeFrame(e)| <= MAX_FRAME
  }

  lemma ReceiveFirst(e: Envelope, rest: Bytes, buffer: nat)
    requires Receivable(e, buffer)
    ensures ReceiveOne(Framed(e) + rest, buffer) == Ok((e, rest))
  {
    var frame := EncodeFrame(e);
    DecodeEncode(e);
    FirstFrame(frame, rest, buffer, e);
  }

  lemma FirstFrame(frame: Bytes, rest: Bytes, buffer: nat, e: Envelope)
    requires DecodeFrame(frame) == Ok(e) && |frame| <= buffer && |frame| <= MAX_FRAME
    ensures ReceiveOne(BE(4, |frame|) + frame + rest, buffer) == Ok((e, rest))
  {
    Powers();
    ValueOfBE(4, |frame|);
    var s := BE(4, |frame|) + frame + rest;
    assert s[..4] == BE(4, |frame|);
    assert s[4..4 + |frame|] == frame;
    assert s[4 + |frame|..] == rest;
  }

  lemma ReceiveStep(s: Bytes, buffer: nat, n: nat, first: Envelope, rest: Bytes, more: seq<Envelope>, left: Bytes)
    requires ReceiveOne(s, buffer) == Ok((first, rest))
    requires ReceiveMany(rest, buffer, n) == Ok((more, left))
    ensures ReceiveMany(s, buffer, n + 1) == Ok(([first] + more, left))
  {
  }

  lemma StreamSplit(es: seq<Envelope>, rest: Bytes)
    requires es != []
    ensures Stream(es) + rest == Framed(es[0]) + (Stream(es[1..]) + rest)
  {
    Associates(Framed(es[0]), Stream(es[1..]), rest);
  }

  lemma Associates(a: Bytes, b: Bytes, c: Bytes)
    ensures (a + b) + c == a + (b + c)
  {
  }

  /** Any list of envelopes, framed one after the other and followed by anything, reads back as that
      list and leaves what followed. */
  lemma {:induction false} StreamRoundTrip(es: seq<Envelope>, rest: Bytes, buffer: nat)
    requires forall e <- es :: Receivable(e, buffer)
    ensures ReceiveMany(Stream(es) + rest, buffer, |es|) == Ok((es, rest))
    decreases |es|
  {
    if es == [] {
      assert Stream(es) + rest == rest;
    } else {
      var tail := Stream(es[1..]) + rest;
      StreamSplit(es, rest);
      ReceiveFirst(es[0], tail, buffer);
      StreamRoundTrip(es[1..], rest, buffer);
      ReceiveStep(Stream(es) + rest, buffer, |es| - 1, es[0], tail, es[1..], rest);
      assert es == [es[0]] + es[1..];
    }
  }

  /** A framed envelope cut short anywhere is the end of the stream, never another envelope. */
  lemma CutFrameIsNotRead(e: Envelope, k: nat, buffer: nat)
    requires Receivable(e, buffer) && k < |Framed(e)|
    ensures ReceiveOne(Framed(e)[..k], buffer) == Err(EndOfStream)
  {
    CutFrame(EncodeFrame(e), k, buffer);
  }

  lemma CutFrame(frame: Bytes, k: nat, buffer: nat)
    requires |frame| <= buffer && |frame| <= MAX_FRAME && k < 4 + |frame|
    ensures ReceiveOne((BE(4, |frame|) + frame)[..k], buffer) == Err(EndOfStream)
  {
    var s := (BE(4, |frame|) + frame)[..k];
    if k >= 4 {
      Powers();
      ValueOfBE(4, |frame|);
      assert s[..4] == BE(4, |frame|);
    }
  }

  /** What a stream reads as: the first four bytes announce a length, which must fit the buffer and 4 MiB; then that
      many bytes must follow, and they must be a frame. */
  lemma ReceivedExactly(len: nat, rest: Bytes, buffer: nat)
    requires len < 0x1_0000_0000
    ensures ReceiveOne(BE(4, len) + rest, buffer) ==
              if len > buffer || len > 4_194_304 then Err(FrameTooLarge)
              else if |rest| < len then Err(EndOfStream)
              else match DecodeFrame(rest[..len]) case Err(e) => Err(Wire(e)) case Ok(e) => Ok((e, rest[len..]))
  {
    var s := BE(4, len) + rest;
    Powers();
    ValueOfBE(4, len);
    assert s[..4] == BE(4, len);
    if len <= |rest| { assert s[4..4 + len] == rest[..len] && s[4 + len..] == rest[len..]; }
  }

  // ---- the binding as it runs ---------------------------------------------------------------

  class Writer {
    var sent: Bytes

    constructor ()
      ensures sent == []
    {
      sent := [];
    }

    method SendFramed(e: Envelope, buffer: array<Byte>) returns (error: Option<TcpError>)
      modifies this, buffer
      ensures error == if TooLarge(e) then Some(Wire(FieldTooLarge))
                       else if buffer.Length < |EncodeFrame(e)| then Some(Wire(BufferTooSmall))
                       else if |EncodeFrame(e)| > 4_194_304 then Some(FrameTooLarge)
                       else None
      ensures sent == if error.None? then old(sent) + Framed(e) else old(sent)
    {
      var r := Encode(e, buffer);
      if r.Err? { return Some(Wire(r.error)); }
      if r.value > MAX_FRAME { return Some(FrameTooLarge); }
      var prefix := new Byte[4](_ => 0);
      assert prefix[..0] == [];
      var n := PutInt(prefix, 0, 4, r.value);
      assert prefix[..4] == BE(4, r.value);
      var frame := buffer[..r.value];
      sent := sent + (prefix[..4] + frame);
      error := None;
    }
  }

  class Reader {
    const data: Bytes
    var position: nat

    ghost predicate Valid()
      reads this
    {
      position <= |data|
    }

    ghost function Remaining(): Bytes
      requires Valid()
      reads this
    {
      data[position..]
    }

    constructor (data: Bytes)
      ensures Valid() && Remaining() == data
    {
      this.data := data;
      position := 0;
    }

    method ReceiveFramed(buffer: array<Byte>) returns (r: Result<Envelope, TcpError>)
      requires Valid()
      modifies this, buffer
      ensures Valid()
      ensures var o := ReceiveOne(old(Remaining()), buffer.Length);
              && (r.Ok? <==> o.Ok?)
              && (o.Ok? ==> r.value == o.value.0 && Remaining() == o.value.1)
              && (o.Err? ==> r.error == o.error)
    {
      ghost var all := Remaining();
      if |data| - position < 4 { return Err(EndOfStream); }
      var len := TakeInt(data, position, 4);
      assert data[position..position + 4] == all[..4];
      position := position + 4;
      if len > buffer.Length || len > MAX_FRAME { return Err(FrameTooLarge); }
      if |data| - position < len { return Err(EndOfStream); }
      for i := 0 to len
        invariant position == old(position) + 4 && position + len <= |data|
        invariant buffer[..i] == data[position..position + i]
      {
        buffer[i] := data[position + i];
        assert data[position..position + i + 1] == data[position..position + i] + [data[position + i]];
      }
      assert buffer[..len] == all[4..4 + len];
      position := position + len;
      assert Remaining() == all[4 + len..];
      var d := Decode(buffer[..len]);
      r := if d.Ok? then Ok(d.value) else Err(Wire(d.error));
    }
  }
}
