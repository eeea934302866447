/** Control frames over a byte stream (mstore/protocol.py). */
module Stream {
  import opened Core
  import opened ByteOrder

  const MAX_FRAME := 4 * 1024 * 1024
  const HEADER_SIZE := 4
  const FIRST_READ := 64 * 1024

  datatype Trouble = EndOfStream | TransportError | Oversized | LengthMismatch | NotAnObject | ExtraBytes

  /** JSON text of a message; loads is None for text that is no JSON object. */
  datatype Codec<!M> = Codec(dumps: M -> seq<byte>, loads: seq<byte> -> Option<M>)

  ghost predicate Lawful<M(!new)>(c: Codec<M>) {
    forall m :: c.loads(c.dumps(m)) == Some(m)
  }

  function EncodeFrame<M>(c: Codec<M>, m: M): Result<seq<byte>, Trouble> {
    var payload := c.dumps(m);
    if |payload| > MAX_FRAME then Err(Oversized) else Ok(ToBE(|payload|, HEADER_SIZE) + payload)
  }

  /** The payload length that a frame announces. */
  function Announced(frame: seq<byte>): nat
    requires |frame| >= HEADER_SIZE
  {
    FromBE(frame[..HEADER_SIZE])
  }

  function DecodeFrame<M>(c: Codec<M>, frame: seq<byte>): Result<M, Trouble> {
    if |frame| < HEADER_SIZE then Err(LengthMismatch)
    else if Announced(frame) > MAX_FRAME then Err(Oversized)
    else if |frame| != HEADER_SIZE + Announced(frame) then Err(LengthMismatch)
    else
      match c.loads(frame[HEADER_SIZE..])
      case None => Err(NotAnObject)
      case Some(m) => Ok(m)
  }

  /** What a receiver makes of a stream: one frame off its front, and the rest. */
  function ParseFrame<M>(c: Codec<M>, s: seq<byte>): (Result<M, Trouble>, seq<byte>) {
    if |s| < HEADER_SIZE then (Err(EndOfStream), [])
    else if Announced(s) > MAX_FRAME then (Err(Oversized), s[HEADER_SIZE..])
    else if |s| < HEADER_SIZE + Announced(s) then (Err(EndOfStream), [])
    else (DecodeFrame(c, s[..HEADER_SIZE + Announced(s)]), s[HEADER_SIZE + Announced(s)..])
  }

  // ----- frames -----

  lemma FrameAnnounces<M>(c: Codec<M>, m: M, rest: seq<byte>)
    requires EncodeFrame(c, m).Ok?
    ensures var f := EncodeFrame(c, m).value;
      && |f| == HEADER_SIZE + |c.dumps(m)| && Announced(f + rest) == |c.dumps(m)|
      && f[HEADER_SIZE..] == c.dumps(m)
  {
    var f := EncodeFrame(c, m).value;
    assert (f + rest)[..HEADER_SIZE] == ToBE(|c.dumps(m)|, HEADER_SIZE);
    FieldLimits();
    ReadsWrittenBE(|c.dumps(m)|, HEADER_SIZE);
  }

  /** encode_frame refuses exactly the messages of more than 4 MiB; a frame is the length, most
      significant byte first, and the text. */
  lemma EncodesExactly<M>(c: Codec<M>, m: M)
    ensures EncodeFrame(c, m) == Err(Oversized) <==> |c.dumps(m)| > 0x40_0000
    ensures EncodeFrame(c, m).Ok? <==> |c.dumps(m)| <= 0x40_0000
    ensures EncodeFrame(c, m).Ok? ==>
      var f, n := EncodeFrame(c, m).value, |c.dumps(m)|;
      && |f| == 4 + n && f[4..] == c.dumps(m)
      && f[0] == 0 && f[1] == n / 0x1_0000 && f[2] == n / 0x100 % 0x100 && f[3] == n % 0x100
  {
    if |c.dumps(m)| <= MAX_FRAME {
      var n := |c.dumps(m)|;
      FieldLimits();
      DigitsBE(n, 4, 0);
      DigitsBE(n, 4, 1);
      DigitsBE(n, 4, 2);
      DigitsBE(n, 4, 3);
    }
  }

  /** decode_frame accepts exactly a length header below the limit followed by that many
      bytes of JSON; repacking what it read gives the frame back. */
  lemma DecodesExactly<M>(c: Codec<M>, frame: seq<byte>)
    ensures DecodeFrame(c, frame).Ok? <==>
      exists p :: |p| <= 0x40_0000 && frame == ToBE(|p|, 4) + p && c.loads(p).Some?
    ensures DecodeFrame(c, frame).Ok? ==> c.loads(frame[4..]) == Some(DecodeFrame(c, frame).value)
  {
    FieldLimits();
    if DecodeFrame(c, frame).Ok? {
      var p := frame[HEADER_SIZE..];
      WritesReadBE(frame[..HEADER_SIZE]);
      assert frame == ToBE(|p|, HEADER_SIZE) + p;
    }
    forall p | |p| <= MAX_FRAME && frame == ToBE(|p|, HEADER_SIZE) + p && c.loads(p).Some?
      ensures DecodeFrame(c, frame).Ok?
    {
      ReadsWrittenBE(|p|, HEADER_SIZE);
      assert frame[..HEADER_SIZE] == ToBE(|p|, HEADER_SIZE) && frame[HEADER_SIZE..] == p;
    }
  }

  /** A frame at the front of a stream comes off whole and leaves the rest. */
  lemma FrameComesOff<M(!new)>(c: Codec<M>, m: M, rest: seq<byte>)
    requires Lawful(c) && EncodeFrame(c, m).Ok?
    ensures ParseFrame(c, EncodeFrame(c, m).value + rest) == (Ok(m), rest)
  {
    var f := EncodeFrame(c, m).value;
    FrameAnnounces(c, m, rest);
    FrameAnnounces(c, m, []);
    assert f + [] == f;
    assert (f + rest)[..|f|] == f && (f + rest)[|f|..] == rest;
  }

  /** What a receive makes of a stream, exactly: the message of the frame at its front; EOF if
      the stream ends inside the frame; a complaint about a length over 4 MiB, with nothing but
      the length taken; or a complaint about a frame that holds no object. */
  lemma ParsesExactly<M(!new)>(c: Codec<M>, s: seq<byte>, m: M, rest: seq<byte>)
    ensures ParseFrame(c, s) == (Ok(m), rest) <==>
      exists p :: |p| <= 0x40_0000 && s == ToBE(|p|, 4) + p + rest && c.loads(p) == Some(m)
    ensures ParseFrame(c, s) == (Err(NotAnObject), rest) <==>
      exists p :: |p| <= 0x40_0000 && s == ToBE(|p|, 4) + p + rest && c.loads(p) == None
    ensures ParseFrame(c, s) == (Err(Oversized), rest) <==> |s| >= 4 && FromBE(s[..4]) > 0x40_0000 && rest == s[4..]
    ensures ParseFrame(c, s).0 == Err(EndOfStream) <==>
      |s| < 4 || (FromBE(s[..4]) <= 0x40_0000 && |s| < 4 + FromBE(s[..4]))
  {
    if |s| >= 4 && FromBE(s[..4]) <= 0x40_0000 && |s| >= 4 + FromBE(s[..4]) {
      var p0, rest0 := CutFront(s);
      FrontOf(s, p0, rest0);
      WholeFrame(c, s);
      forall p | |p| <= 0x40_0000 && s == ToBE(|p|, 4) + p + rest ensures p == p0 && rest == rest0 {
        FrontOf(s, p, rest);
      }
    } else {
      forall p | |p| <= 0x40_0000 && s == ToBE(|p|, 4) + p + rest ensures false {
        FrontOf(s, p, rest);
      }
    }
  }

  lemma CutFront(s: seq<byte>) returns (p: seq<byte>, rest: seq<byte>)
    requires |s| >= 4 && |s| >= 4 + FromBE(s[..4])
    ensures |p| == FromBE(s[..4]) && s == ToBE(|p|, 4) + p + rest
  {
    WritesReadBE(s[..4]);
    var n := FromBE(s[..4]);
    p, rest := s[4..4 + n], s[4 + n..];
  }

  /** A frame at the front announces its own length. */
  lemma FrontOf(s: seq<byte>, p: seq<byte>, rest: seq<byte>)
    requires |p| <= 0x40_0000 && s == ToBE(|p|, 4) + p + rest
    ensures |s| >= 4 + |p| && FromBE(s[..4]) == |p| && s[4..4 + |p|] == p && s[4 + |p|..] == rest
  {
    FieldLimits();
    ReadsWrittenBE(|p|, 4);
    assert s[..4] == ToBE(|p|, 4);
  }

  lemma WholeFrame<M>(c: Codec<M>, s: seq<byte>)
    requires |s| >= 4 && FromBE(s[..4]) <= 0x40_0000 && |s| >= 4 + FromBE(s[..4])
    ensures var n := FromBE(s[..4]);
      ParseFrame(c, s)
        == (if c.loads(s[4..4 + n]).Some? then Ok(c.loads(s[4..4 + n]).value) else Err(NotAnObject), s[4 + n..])
  {
    var n := FromBE(s[..4]);
    var f := s[..4 + n];
    assert f[..4] == s[..4] && f[4..] == s[4..4 + n];
  }

  function Frames<M>(c: Codec<M>, ms: seq<M>): Result<seq<byte>, Trouble> {
    if ms == [] then Ok([])
    else
      match (EncodeFrame(c, ms[0]), Frames(c, ms[1..]))
      case (Ok(f), Ok(rest)) => Ok(f + rest)
      case _ => Err(Oversized)
  }

  /** n receives, one after the other. */
  function ParseFrames<M>(c: Codec<M>, s: seq<byte>, n: nat): (Result<seq<M>, Trouble>, seq<byte>) {
    if n == 0 then (Ok([]), s)
    else
      match ParseFrame(c, s)
      case (Err(e), rest) => (Err(e), rest)
      case (Ok(m), rest) =>
        match ParseFrames(c, rest, n - 1)
        case (Ok(ms), end) => (Ok([m] + ms), end)
        case (Err(e), end) => (Err(e), end)
  }

  /** A concatenation of frames comes back message by message, in order. */
  lemma {:induction false} FramesComeBack<M(!new)>(c: Codec<M>, ms: seq<M>, rest: seq<byte>)
    requires Lawful(c) && Frames(c, ms).Ok?
    ensures ParseFrames(c, Frames(c, ms).value + rest, |ms|) == (Ok(ms), rest)
  {
    if ms == [] {
      assert Frames(c, ms).value + rest == rest;
    } else {
      var f, more := EncodeFrame(c, ms[0]).value, Frames(c, ms[1..]).value;
      assert f + more + rest == f + (more + rest);
      FrameComesOff(c, ms[0], more + rest);
      FramesComeBack(c, ms[1..], rest);
      assert [ms[0]] + ms[1..] == ms;
    }
  }

  /** A stream cut inside a frame ends in EOF, never in a message. */
  lemma CutFrameIsEof<M>(c: Codec<M>, m: M, k: nat)
    requires EncodeFrame(c, m).Ok? && k < |EncodeFrame(c, m).value|
    ensures ParseFrame(c, EncodeFrame(c, m).value[..k]) == (Err(EndOfStream), [])
  {
    var f := EncodeFrame(c, m).value;
    FrameAnnounces(c, m, []);
    assert f + [] == f;
    if k >= HEADER_SIZE {
      assert f[..k][..HEADER_SIZE] == f[..HEADER_SIZE];
    }
  }

  // ----- the socket -----

  /** Only the beginning of data went out, perhaps nothing, perhaps everything. */
  ghost predicate PartlySent(before: seq<byte>, data: seq<byte>, after: seq<byte>) {
    exists k :: 0 <= k <= |data| && after == before + data[..k]
  }

  lemma SentInParts(start: seq<byte>, data: seq<byte>, sent: nat, after: seq<byte>)
    requires sent <= |data| && PartlySent(start + data[..sent], data[sent..], after)
    ensures PartlySent(start, data, after)
  {
    var k :| 0 <= k <= |data| - sent && after == start + data[..sent] + data[sent..][..k];
    assert data[..sent] + data[sent..][..k] == data[..sent + k];
    assert after == start + (data[..sent] + data[sent..][..k]);
  }

  lemma SentInTwo(start: seq<byte>, data: seq<byte>, sent: nat)
    requires sent <= |data|
    ensures start + data[..sent] + data[sent..] == start + data
  {
    assert data[..sent] + data[sent..] == data;
  }

  /** A stream socket. incoming is what the peer sends before it closes and this side has not
      received; outgoing is what this side has handed over. A broken socket stays broken. On a
      reliable socket nothing times out or raises. */
  class Socket {
    const reliable: bool
    var incoming: seq<byte>
    var outgoing: seq<byte>
    var broken: bool

    /** recv: any nonempty chunk up to the limit, nothing at the end of the stream, or a
        timeout or transport error. */
    method Recv(limit: nat) returns (chunk: Result<seq<byte>, Trouble>)
      requires limit > 0
      modifies this`incoming
      ensures chunk.Ok? ==> old(incoming) == chunk.value + incoming && |chunk.value| <= limit
      ensures chunk.Ok? ==> (chunk.value == [] <==> old(incoming) == [])
      ensures chunk.Err? ==> chunk.error == TransportError && incoming == old(incoming) && !reliable
    {
      var raises: bool := *;
      if raises && !reliable {
        return Err(TransportError);
      }
      if incoming == [] {
        return Ok([]);
      }
      var n :| 0 < n <= limit && n <= |incoming|;
      chunk := Ok(incoming[..n]);
      incoming := incoming[n..];
    }

    /** sendall: everything, or a part and the socket is broken. */
    method SendAll(data: seq<byte>) returns (ok: bool)
      modifies this`outgoing, this`broken
      ensures ok ==> outgoing == old(outgoing) + data && !broken && !old(broken)
      ensures !ok ==> broken && PartlySent(old(outgoing), data, outgoing)
      ensures old(broken) ==> outgoing == old(outgoing)
      ensures reliable && !old(broken) ==> ok
    {
      if broken {
        assert outgoing == outgoing + data[..0];
        return false;
      }
      var whole: bool := *;
      if whole || reliable {
        outgoing := outgoing + data;
        return true;
      }
      var k :| 0 <= k <= |data|;
      outgoing := outgoing + data[..k];
      broken := true;
      return false;
    }

    /** sendmsg: the beginning of the data, at least a byte of it. 0 stands for an exception,
        before any byte, which may leave the socket working. */
    method SendMsg(data: seq<byte>) returns (sent: nat)
      requires |data| > 0
      modifies this`outgoing, this`broken
      ensures sent <= |data| && outgoing == old(outgoing) + data[..sent]
      ensures sent > 0 ==> !broken && !old(broken)
      ensures old(broken) ==> broken
      ensures reliable && !old(broken) ==> sent > 0
    {
      if broken {
        return 0;
      }
      var raises: bool := *;
      if raises && !reliable {
        broken := *;
        return 0;
      }
      sent :| 0 < sent <= |data|;
      outgoing := outgoing + data[..sent];
    }
  }

  /** recv_exact: the chunks add up to the next size bytes of the stream. */
  method RecvExact(sock: Socket, size: nat) returns (r: Result<seq<byte>, Trouble>)
    modifies sock`incoming
    ensures r.Ok? ==> |r.value| == size && old(sock.incoming) == r.value + sock.incoming
    ensures r == Err(EndOfStream) ==> |old(sock.incoming)| < size && sock.incoming == []
    ensures r.Err? ==> r.error == EndOfStream || (r.error == TransportError && !sock.reliable)
  {
    var data: seq<byte> := [];
    var remaining: nat := size;
    while remaining > 0
      invariant old(sock.incoming) == data + sock.incoming
      invariant |data| + remaining == size
    {
      var chunk := sock.Recv(remaining);
      if chunk.Err? {
        return chunk;
      }
      if chunk.value == [] {
        return Err(EndOfStream);
      }
      assert data + (chunk.value + sock.incoming) == (data + chunk.value) + sock.incoming;
      data := data + chunk.value;
      remaining := remaining - |chunk.value|;
    }
    return Ok(data);
  }

  /** recv_frame: however the bytes arrive, one parse of the stream. */
  method RecvFrame<M>(sock: Socket, c: Codec<M>) returns (r: Result<M, Trouble>)
    modifies sock`incoming
    ensures r != Err(TransportError) || sock.reliable ==> (r, sock.incoming) == ParseFrame(c, old(sock.incoming))
  {
    ghost var s := sock.incoming;
    var header := RecvExact(sock, HEADER_SIZE);
    if header.Err? {
      return Err(header.error);
    }
    assert header.value == s[..HEADER_SIZE] && sock.incoming == s[HEADER_SIZE..];
    var size := FromBE(header.value);
    if size > MAX_FRAME {
      return Err(Oversized);
    }
    var payload := RecvExact(sock, size);
    if payload.Err? {
      return Err(payload.error);
    }
    assert header.value + payload.value == s[..HEADER_SIZE + size];
    assert sock.incoming == s[HEADER_SIZE + size..];
    return DecodeFrame(c, header.value + payload.value);
  }

  /** recv_frame_with_optional_fd: one parse of the stream, with the rest intact, or a
      complaint about bytes beyond the frame, which then really are there. */
  method RecvFrameWithFd<M>(sock: Socket, c: Codec<M>) returns (r: Result<M, Trouble>)
    modifies sock`incoming
    ensures r.Ok? ==> (r, sock.incoming) == ParseFrame(c, old(sock.incoming))
    ensures r.Err? && r.error != TransportError && r.error != ExtraBytes ==> r == ParseFrame(c, old(sock.incoming)).0
    ensures r == Err(ExtraBytes) ==> ParseFrame(c, old(sock.incoming)).1 != []
    ensures r == Err(TransportError) ==> !sock.reliable
  {
    ghost var s := sock.incoming;
    var first := sock.Recv(FIRST_READ);
    if first.Err? {
      return Err(first.error);
    }
    if first.value == [] {
      return Err(EndOfStream);
    }
    var buf := first.value;
    while |buf| < HEADER_SIZE
      invariant s == buf + sock.incoming
      decreases HEADER_SIZE - |buf|
    {
      var more := RecvExact(sock, HEADER_SIZE - |buf|);
      if more.Err? {
        return Err(more.error);
      }
      buf := Extended(s, buf, more.value, sock.incoming);
    }
    assert buf[..HEADER_SIZE] == s[..HEADER_SIZE];
    var size := FromBE(buf[..HEADER_SIZE]);
    if size > MAX_FRAME {
      return Err(Oversized);
    }
    var total := HEADER_SIZE + size;
    if |buf| < total {
      var more := RecvExact(sock, total - |buf|);
      if more.Err? {
        return Err(more.error);
      }
      buf := Extended(s, buf, more.value, sock.incoming);
    }
    if |buf| != total {
      return Err(ExtraBytes);
    }
    assert buf == s[..total] && sock.incoming == s[total..];
    return DecodeFrame(c, buf);
  }

  /** buf.extend. */
  function Extended(ghost s: seq<byte>, buf: seq<byte>, more: seq<byte>, ghost rest: seq<byte>): (r: seq<byte>)
    requires s == buf + (more + rest)
    ensures r == buf + more && s == r + rest
  {
    buf + more
  }

  /** send_frame: with a descriptor the frame starts with sendmsg. */
  method SendFrame<M>(sock: Socket, c: Codec<M>, m: M, withFd: bool) returns (r: Result<(), Trouble>)
    modifies sock`outgoing, sock`broken
    ensures r.Ok? ==> EncodeFrame(c, m).Ok? && sock.outgoing == old(sock.outgoing) + EncodeFrame(c, m).value
    ensures r == Err(Oversized) <==> EncodeFrame(c, m).Err?
    ensures r == Err(Oversized) ==> sock.outgoing == old(sock.outgoing) && sock.broken == old(sock.broken)
    ensures r.Err? && r.error != Oversized ==> r.error == TransportError
    ensures r == Err(TransportError) ==> sock.broken || sock.outgoing == old(sock.outgoing)
    ensures old(sock.broken) ==> r.Err? && sock.broken && sock.outgoing == old(sock.outgoing)
    ensures r == Err(TransportError) ==> PartlySent(old(sock.outgoing), EncodeFrame(c, m).value, sock.outgoing)
    ensures sock.reliable && !old(sock.broken) ==> r != Err(TransportError) && !sock.broken
  {
    var frame := EncodeFrame(c, m);
    if frame.Err? {
      return Err(Oversized);
    }
    var data := frame.value;
    if !withFd {
      var ok := sock.SendAll(data);
      return if ok then Ok(()) else Err(TransportError);
    }
    var sent := sock.SendMsg(data);
    assert PartlySent(old(sock.outgoing), data, sock.outgoing);
    if sent == 0 {
      return Err(TransportError);
    }
    if sent < |data| {
      var ok := sock.SendAll(data[sent..]);
      if !ok {
        SentInParts(old(sock.outgoing), data, sent, sock.outgoing);
        return Err(TransportError);
      }
      SentInTwo(old(sock.outgoing), data, sent);
    }
    assert data[..|data|] == data;
    return Ok(());
  }
}
