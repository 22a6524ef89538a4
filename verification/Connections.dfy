/**
  * Length-prefixed framing over a byte transport (Connection.cc).
  *
  * The transport is a byte pipe.  How many bytes a raw call moves is up to the
  * transport, so it is a parameter of each call.
  */
module Connections {
  import opened Bits
  import opened LittleEndian
  import opened Wire
  import opened WireFormat
  import opened MessageLaws
  import opened Streams

  function Min(a: nat, b: nat): nat { if a <= b then a else b }

  /** The length in a frame's header counts the header, in 32-bit arithmetic. */
  function FrameLength(payload: bytes): u32 {
    (|payload| + 4) % 0x1_0000_0000
  }

  function Frame(payload: bytes): bytes {
    LE(4, FrameLength(payload)) + payload
  }

  datatype Unframed = Delivered(payload: bytes, pipe: bytes) | Raised(pipe: bytes)

  /** One `read`, given how many bytes each of its two raw reads is supplied with at most. */
  function Unframe(pipe: bytes, supply: nat, supply2: nat): Unframed {
    var n := Min(4, Min(supply, |pipe|));
    if n != 4 then Raised(pipe[n..])
    else
      var size := U32Of(pipe[..4]);
      if size < 4 then Raised(pipe[4..])
      else
        var rest := pipe[4..];
        var k := Min(size - 4, Min(supply2, |rest|));
        if k + 4 != size then Raised(rest[k..]) else Delivered(rest[..k], rest[k..])
  }

  class Connection {
    var pipe: bytes

    constructor ()
      ensures pipe == []
    {
      pipe := [];
    }

    method RawWrite(data: bytes, accept: nat) returns (n: nat)
      modifies this
      ensures n == Min(accept, |data|) && pipe == old(pipe) + data[..n]
    {
      n := Min(accept, |data|);
      pipe := pipe + data[..n];
    }

    method RawRead(capacity: nat, supply: nat) returns (data: bytes)
      modifies this
      ensures |data| == Min(capacity, Min(supply, |old(pipe)|))
      ensures data == old(pipe)[..|data|] && pipe == old(pipe)[|data|..]
    {
      var n := Min(capacity, Min(supply, |pipe|));
      data := pipe[..n];
      pipe := pipe[n..];
    }

    /** Frames the whole contents of msg, read or not. */
    method Write(msg: MessageStream, accept: nat) returns (o: Outcome)
      requires msg.Valid()
      modifies this
      ensures |msg.buf| > MAX_U32 ==> o == Threw(TooLong) && pipe == old(pipe)
      ensures |msg.buf| <= MAX_U32 ==>
                var n := Min(accept, |msg.buf| + 4);
                && pipe == old(pipe) + Frame(msg.buf)[..n]
                && o == if n == FrameLength(msg.buf) then Done else Threw(TransportFailed)
    {
      var contents := msg.Contents();
      var len := |contents| % 0x1_0000_0000;
      if len != |contents| { return Threw(TooLong); }
      var actualLen: u32 := (len + 4) % 0x1_0000_0000;
      NarrowFits(8, actualLen);
      NarrowFits(8, Shr(actualLen, 8));
      NarrowFits(8, Shr(actualLen, 16));
      NarrowFits(8, Shr(actualLen, 24));
      var header: bytes := [Trunc(8, actualLen), Trunc(8, Shr(actualLen, 8)),
                            Trunc(8, Shr(actualLen, 16)), Trunc(8, Shr(actualLen, 24))];
      FourShifts(actualLen);
      assert header + contents == Frame(contents);
      var bytesWritten := RawWrite(header + contents, accept);
      o := if bytesWritten != actualLen then Threw(TransportFailed) else Done;
    }

    /** Reads the length, then exactly the rest of the frame, and appends it to msg. */
    method Read(msg: MessageStream, supply: nat, supply2: nat) returns (o: Outcome)
      requires msg.Valid()
      modifies this, msg
      ensures msg.Valid()
      ensures match Unframe(old(pipe), supply, supply2)
              case Delivered(payload, rest) =>
                o == Done && pipe == rest && msg.State() == old(msg.State()).Store(payload)
              case Raised(rest) =>
                o == Threw(TransportFailed) && pipe == rest && msg.State() == old(msg.State())
    {
      hide Val, StreamState.Store;
      var sizeAcquire := RawRead(4, supply);
      if |sizeAcquire| != 4 { return Threw(TransportFailed); }
      var messageSize := Build32From8(sizeAcquire[0], sizeAcquire[1], sizeAcquire[2], sizeAcquire[3]);
      assert sizeAcquire == [sizeAcquire[0], sizeAcquire[1], sizeAcquire[2], sizeAcquire[3]];
      if messageSize < 4 { return Threw(TransportFailed); }
      var storage := RawRead(messageSize - 4, supply2);
      if |storage| + |sizeAcquire| != messageSize { return Threw(TransportFailed); }
      msg.Write(storage);
      o := Done;
    }
  }

  /** A frame is its length, itself included and cut to 32 bits, least significant byte first, then the payload. */
  lemma FrameOnWire(payload: bytes)
    ensures Frame(payload) == Four((|payload| + 4) % 0x1_0000_0000) + payload
  {
    DigitsOfFour(FrameLength(payload));
  }

  /** Where in the pipe a read that raises stops. */
  function RaisedAt(pipe: bytes, supply: nat, supply2: nat): (k: nat)
    ensures k <= |pipe|
  {
    if supply < 4 || |pipe| < 4 then Min(supply, |pipe|)
    else if Num32(pipe) < 4 then 4
    else 4 + Min(supply2, |pipe| - 4)
  }

  /**
    * A read delivers exactly when both raw reads are supplied in full: the payload is the bytes behind the
    * length, as they come, and the rest stays on the pipe.  Otherwise it has taken what it was supplied with.
    */
  lemma ReadIff(pipe: bytes, supply: nat, supply2: nat)
    ensures var r := Unframe(pipe, supply, supply2);
            if supply >= 4 && |pipe| >= 4 && 4 <= Num32(pipe) <= |pipe| && supply2 >= Num32(pipe) - 4
            then r == Delivered(pipe[4..Num32(pipe)], pipe[Num32(pipe)..])
            else r == Raised(pipe[RaisedAt(pipe, supply, supply2)..])
  {
    hide Val, Num32;
    ValOfDigits(pipe);
    if |pipe| >= 4 {
      var size, rest := Num32(pipe), pipe[4..];
      if 4 <= size <= |pipe| {
        assert rest[..size - 4] == pipe[4..size] && rest[size - 4..] == pipe[size..];
      }
      var k := Min(supply2, |rest|);
      assert rest[k..] == pipe[4 + k..];
    }
  }

  /**
    * The frame of a payload that fits is delivered exactly when the transport supplies all of
    * it; then the payload comes out whole and what follows it stays on the pipe.
    */
  lemma FrameRoundTrip(payload: bytes, rest: bytes, supply: nat, supply2: nat)
    requires |payload| <= MAX_PAYLOAD
    ensures var r := Unframe(Frame(payload) + rest, supply, supply2);
            && (r.Delivered? <==> supply >= 4 && supply2 >= |payload|)
            && (r.Delivered? ==> r == Delivered(payload, rest))
  {
    hide LE, Val;
    var header := LE(4, FrameLength(payload));
    var pipe := Frame(payload) + rest;
    FixedWidths(0, 0, FrameLength(payload), 0);
    assert pipe == header + (payload + rest);
    assert pipe[..4] == header && pipe[4..] == payload + rest;
    assert (payload + rest)[..|payload|] == payload && (payload + rest)[|payload|..] == rest;
  }

  /**
    * `Connection::write`, for a payload that passes its 32-bit check, when the transport
    * accepts n bytes of the frame.  If the frame's length fits 32 bits, normal return means that
    * all of it was accepted and that the header says so.  Otherwise the header has wrapped:
    * a complete write raises, and normal return means that fewer than 4 bytes got through.
    */
  lemma WriteContract(payload: bytes, n: nat)
    requires |payload| <= MAX_U32 && n <= |Frame(payload)|
    ensures |payload| <= MAX_PAYLOAD ==>
              && (n == FrameLength(payload) <==> n == |Frame(payload)|)
              && Val(Frame(payload)[..4]) == |Frame(payload)|
    ensures |payload| > MAX_PAYLOAD ==>
              && |Frame(payload)| != FrameLength(payload)
              && (n == FrameLength(payload) <==> n == |payload| - MAX_PAYLOAD - 1) && FrameLength(payload) < 4
  {
    hide LE, Val;
    FixedWidths(0, 0, FrameLength(payload), 0);
    assert Frame(payload)[..4] == LE(4, FrameLength(payload));
  }

  /** A frame whose length wrapped makes the reader take the header and raise, leaving it inside the payload. */
  lemma WrappedFrameRaises(payload: bytes, rest: bytes, supply: nat, supply2: nat)
    requires MAX_PAYLOAD < |payload| <= MAX_U32 && supply >= 4
    ensures Unframe(Frame(payload) + rest, supply, supply2) == Raised(payload + rest)
  {
    hide LE, Val;
    var header := LE(4, FrameLength(payload));
    var pipe := Frame(payload) + rest;
    FixedWidths(0, 0, FrameLength(payload), 0);
    assert pipe == header + (payload + rest);
    assert pipe[..4] == header && pipe[4..] == payload + rest;
  }

  /**
    * A read that raises has taken bytes, and so is not all-or-nothing, except exactly when there was
    * nothing on the pipe or the transport supplied nothing.
    */
  lemma RaisedReadKeepsPipeIff(pipe: bytes, supply: nat, supply2: nat)
    requires Unframe(pipe, supply, supply2).Raised?
    ensures Unframe(pipe, supply, supply2).pipe == pipe <==> pipe == [] || supply == 0
    ensures IsSuffix(Unframe(pipe, supply, supply2).pipe, pipe)
  {
  }
}
