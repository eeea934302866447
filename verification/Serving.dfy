/** The daemon's loop over one connection (mstore/server.py, _serve_connection). */
module Serving {
  import opened Core
  import opened Stream

  // ----- the daemon's side of one request -----

  /** handle is _handle with its exceptions turned into error payloads; complaint is the
      payload for an error of the stream itself. */
  datatype Service<!S, !M> = Service(codec: Codec<M>, handle: (S, M) -> (S, M), complaint: Trouble -> M)

  /** The reply that goes out. A reply that cannot be sent (it is too long, or the first send
      raises before any byte) is replaced by an error payload; if that one is too long, too,
      the connection ends without a reply. */
  function Outgoing<S, M>(svc: Service<S, M>, reply: M, sendRaises: bool): Option<M> {
    var e := svc.complaint(if sendRaises then TransportError else Oversized);
    if !sendRaises && EncodeFrame(svc.codec, reply).Ok? then Some(reply)
    else if EncodeFrame(svc.codec, e).Ok? then Some(e)
    else None
  }

  function Bytes<M>(c: Codec<M>, reply: Option<M>): seq<byte> {
    match reply
    case None => []
    case Some(m) => match EncodeFrame(c, m) case Ok(f) => f case Err(_) => []
  }

  /** A handled request: the daemon's state before, and the reply that went out. */
  datatype Exchange<S, M> = Exchange(request: M, before: S, reply: Option<M>)

  ghost predicate Genuine<S, M>(svc: Service<S, M>, x: Exchange<S, M>) {
    var r := svc.handle(x.before, x.request).1;
    x.reply == Outgoing(svc, r, false) || x.reply == Outgoing(svc, r, true)
  }

  // ----- the loop -----

  /** The bytes of the replies to xs, in order. */
  function Replies<S, M>(c: Codec<M>, xs: seq<Exchange<S, M>>): seq<byte> {
    if xs == [] then [] else Replies(c, xs[..|xs| - 1]) + Bytes(c, xs[|xs| - 1].reply)
  }

  function Requests<S, M>(xs: seq<Exchange<S, M>>): (ms: seq<M>)
    ensures |ms| == |xs|
  {
    if xs == [] then [] else Requests(xs[..|xs| - 1]) + [xs[|xs| - 1].request]
  }

  /** The daemon's state after xs, from s on. */
  function StateAfter<S, M>(svc: Service<S, M>, s: S, xs: seq<Exchange<S, M>>): S {
    if xs == [] then s else svc.handle(xs[|xs| - 1].before, xs[|xs| - 1].request).0
  }

  /** Each request was handled in the state that the one before it left. */
  ghost predicate HandledInTurn<S, M>(svc: Service<S, M>, s: S, xs: seq<Exchange<S, M>>) {
    forall k :: 0 <= k < |xs| ==> Genuine(svc, xs[k]) && xs[k].before == StateAfter(svc, s, xs[..k])
  }

  /** What a connection leaves on the wire: every reply in order, with at most a beginning of
      the last, or at most a beginning of a complaint after all of them. */
  ghost predicate RepliedInTurn<S, M>(svc: Service<S, M>, before: seq<byte>, xs: seq<Exchange<S, M>>,
      after: seq<byte>) {
    || (|xs| > 0 &&
        PartlySent(before + Replies(svc.codec, xs[..|xs| - 1]), Bytes(svc.codec, xs[|xs| - 1].reply), after))
    || (exists e :: PartlySent(before + Replies(svc.codec, xs), Bytes(svc.codec, Some(svc.complaint(e))), after))
  }

  /** One more receive at the end of a run of receives. */
  lemma {:induction false} OneMoreFrame<M>(c: Codec<M>, s: seq<byte>, ms: seq<M>, rest: seq<byte>)
    requires ParseFrames(c, s, |ms|) == (Ok(ms), rest) && ParseFrame(c, rest).0.Ok?
    ensures ParseFrames(c, s, |ms| + 1) == (Ok(ms + [ParseFrame(c, rest).0.value]), ParseFrame(c, rest).1)
    decreases |ms|
  {
    var m := ParseFrame(c, rest).0.value;
    var end := ParseFrame(c, rest).1;
    if ms == [] {
      assert ParseFrames(c, end, 0) == (Ok([]), end);
      assert [m] + [] == ms + [m];
    } else {
      var (first, more) := ParseFrame(c, s);
      assert ParseFrames(c, more, |ms| - 1).0.Ok?;
      var tail := ParseFrames(c, more, |ms| - 1).0.value;
      assert ms == [first.value] + tail;
      OneMoreFrame(c, more, tail, rest);
      assert [first.value] + (tail + [m]) == ms + [m];
    }
  }

  lemma HandledOneMore<S, M>(svc: Service<S, M>, s: S, xs: seq<Exchange<S, M>>, x: Exchange<S, M>)
    requires HandledInTurn(svc, s, xs) && x.before == StateAfter(svc, s, xs) && Genuine(svc, x)
    ensures HandledInTurn(svc, s, xs + [x]) && StateAfter(svc, s, xs + [x]) == svc.handle(x.before, x.request).0
    ensures Requests(xs + [x]) == Requests(xs) + [x.request]
    ensures Replies(svc.codec, xs + [x]) == Replies(svc.codec, xs) + Bytes(svc.codec, x.reply)
  {
    var ys := xs + [x];
    assert ys[..|xs|] == xs;
    forall k | 0 <= k < |ys| ensures Genuine(svc, ys[k]) && ys[k].before == StateAfter(svc, s, ys[..k]) {
      if k < |xs| {
        assert ys[..k] == xs[..k];
      }
    }
  }

  /** The replacement of a reply that could not be sent. */
  method SendReply<S, M>(sock: Socket, svc: Service<S, M>, reply: M, withFd: bool)
    returns (done: bool, ghost sent: Option<M>, ghost raised: bool)
    modifies sock`outgoing, sock`broken
    ensures sent == Outgoing(svc, reply, raised)
    ensures done ==> sock.outgoing == old(sock.outgoing) + Bytes(svc.codec, sent)
    ensures !done ==> PartlySent(old(sock.outgoing), Bytes(svc.codec, sent), sock.outgoing)
    ensures sock.reliable && !old(sock.broken) ==> !raised && (done <==> sent.Some?) && !sock.broken
  {
    var r := SendFrame(sock, svc.codec, reply, withFd);
    raised := r == Err(TransportError) && !sock.broken;
    sent := Outgoing(svc, reply, raised);
    if r.Ok? {
      return true, sent, raised;
    }
    ghost var wire := sock.outgoing;
    var e := SendFrame(sock, svc.codec, svc.complaint(r.error), false);
    NothingSent(wire, Bytes(svc.codec, sent));
    return e.Ok?, sent, raised;
  }

  /** e is what ends a connection whose stream goes on like this: its end, a malformed frame, or
      bytes behind a frame. */
  predicate EndsWith<M>(c: Codec<M>, stream: seq<byte>, e: Trouble) {
    ParseFrame(c, stream).0 == Err(e) || (e == ExtraBytes && ParseFrame(c, stream).1 != [])
  }

  /** What the daemon then sends: nothing at the end of the stream, else one complaint. */
  function Farewell<S, M>(svc: Service<S, M>, e: Trouble): seq<byte> {
    if e == EndOfStream then [] else Bytes(svc.codec, Some(svc.complaint(e)))
  }

  /** One turn of the loop. */
  method ServeOne<S, M>(sock: Socket, svc: Service<S, M>, daemon: S)
      returns (request: Result<M, Trouble>, next: S, done: bool, ghost sent: Option<M>)
    modifies sock
    ensures request.Ok? ==> (request, sock.incoming) == ParseFrame(svc.codec, old(sock.incoming))
    ensures request.Ok? ==> next == svc.handle(daemon, request.value).0
    ensures request.Ok? ==> Genuine(svc, Exchange(request.value, daemon, sent))
    ensures request.Ok? && done ==> sock.outgoing == old(sock.outgoing) + Bytes(svc.codec, sent)
    ensures request.Ok? && !done ==> PartlySent(old(sock.outgoing), Bytes(svc.codec, sent), sock.outgoing)
    ensures request.Err? ==> next == daemon
    ensures request.Err? ==>
      PartlySent(old(sock.outgoing), Bytes(svc.codec, Some(svc.complaint(request.error))), sock.outgoing)
    ensures sock.reliable && !old(sock.broken) ==>
      && (request.Err? ==> EndsWith(svc.codec, old(sock.incoming), request.error))
      && (request.Err? ==> sock.outgoing == old(sock.outgoing) + Farewell(svc, request.error))
      && (request.Ok? ==> (done <==> sent.Some?)) && !sock.broken
  {
    request := RecvFrameWithFd(sock, svc.codec);
    if request.Err? {
      NothingSent(sock.outgoing, Bytes(svc.codec, Some(svc.complaint(request.error))));
      if request.error != EndOfStream && request.error != TransportError {
        var r := SendFrame(sock, svc.codec, svc.complaint(request.error), false);
        AllSent(old(sock.outgoing), Bytes(svc.codec, Some(svc.complaint(request.error))));
      }
      return request, daemon, false, None;
    }
    var withFd: bool := *;
    var (state, reply) := svc.handle(daemon, request.value);
    next := state;
    ghost var raised;
    done, sent, raised := SendReply(sock, svc, reply, withFd);
  }

  /** xs are the requests at the front of the stream, handled in turn; rest follows them. */
  ghost predicate Progress<S, M>(svc: Service<S, M>, start: S, stream: seq<byte>, xs: seq<Exchange<S, M>>, daemon: S,
      rest: seq<byte>) {
    && ParseFrames(svc.codec, stream, |xs|) == (Ok(Requests(xs)), rest)
    && HandledInTurn(svc, start, xs) && daemon == StateAfter(svc, start, xs)
  }

  /** Every reply went out whole. */
  ghost predicate Replied<S, M>(svc: Service<S, M>, before: seq<byte>, xs: seq<Exchange<S, M>>, after: seq<byte>) {
    after == before + Replies(svc.codec, xs)
  }

  lemma OneMoreTurn<S, M>(svc: Service<S, M>, start: S, stream: seq<byte>, xs: seq<Exchange<S, M>>, daemon: S,
      rest: seq<byte>, x: Exchange<S, M>)
    requires Progress(svc, start, stream, xs, daemon, rest)
    requires x.before == daemon && Genuine(svc, x) && ParseFrame(svc.codec, rest).0 == Ok(x.request)
    ensures Progress(svc, start, stream, xs + [x], svc.handle(daemon, x.request).0, ParseFrame(svc.codec, rest).1)
    ensures |ParseFrame(svc.codec, rest).1| < |rest|
  {
    OneMoreFrame(svc.codec, stream, Requests(xs), rest);
    HandledOneMore(svc, start, xs, x);
  }

  lemma TurnReplied<S, M>(svc: Service<S, M>, before: seq<byte>, xs: seq<Exchange<S, M>>, x: Exchange<S, M>,
      wire: seq<byte>, after: seq<byte>)
    requires Replied(svc, before, xs, wire)
    ensures after == wire + Bytes(svc.codec, x.reply) ==> Replied(svc, before, xs + [x], after)
    ensures PartlySent(wire, Bytes(svc.codec, x.reply), after) ==> RepliedInTurn(svc, before, xs + [x], after)
  {
    assert (xs + [x])[..|xs|] == xs;
  }

  lemma NoReply<S, M>(svc: Service<S, M>, before: seq<byte>, xs: seq<Exchange<S, M>>, wire: seq<byte>,
      after: seq<byte>, e: Trouble)
    requires Replied(svc, before, xs, wire)
    ensures PartlySent(wire, Bytes(svc.codec, Some(svc.complaint(e))), after) ==> RepliedInTurn(svc, before, xs, after)
  {
  }

  /** _serve_connection: one reply per request, in order, until the stream or a send fails or
      the daemon stops (which it does if stopping says so). xs is the history of the
      connection. On a reliable socket nothing but the stream itself ends it, or a request to
      which no reply can be sent. */
  method ServeConnection<S, M>(sock: Socket, svc: Service<S, M>, start: S, stopping: bool)
    returns (daemon: S, ghost xs: seq<Exchange<S, M>>, ghost rest: seq<byte>)
    modifies sock
    ensures Progress(svc, start, old(sock.incoming), xs, daemon, rest)
    ensures RepliedInTurn(svc, old(sock.outgoing), xs, sock.outgoing)
    ensures sock.reliable && !old(sock.broken) && !stopping ==>
      || (|xs| > 0 && xs[|xs| - 1].reply.None?)
      || exists e :: EndsWith(svc.codec, rest, e) &&
           sock.outgoing == old(sock.outgoing) + Replies(svc.codec, xs) + Farewell(svc, e)
  {
    ghost var wire := sock.outgoing;
    daemon, xs, rest := start, [], sock.incoming;
    assert wire == wire + Replies(svc.codec, xs);
    while true
      invariant rest == sock.incoming && Progress(svc, start, old(sock.incoming), xs, daemon, rest)
      invariant wire == sock.outgoing && Replied(svc, old(sock.outgoing), xs, wire)
      invariant sock.reliable && !old(sock.broken) ==> !sock.broken
      decreases |rest|
    {
      var stops: bool := *;
      if stops && stopping {
        NothingSent(wire, Bytes(svc.codec, Some(svc.complaint(EndOfStream))));
        NoReply(svc, old(sock.outgoing), xs, wire, wire, EndOfStream);
        return;
      }
      var request, next, done, sent := ServeOne(sock, svc, daemon);
      if request.Err? {
        NoReply(svc, old(sock.outgoing), xs, wire, sock.outgoing, request.error);
        return;
      }
      ghost var x := Exchange(request.value, daemon, sent);
      OneMoreTurn(svc, start, old(sock.incoming), xs, daemon, rest, x);
      TurnReplied(svc, old(sock.outgoing), xs, x, wire, sock.outgoing);
      daemon, xs, rest, wire := next, xs + [x], sock.incoming, sock.outgoing;
      if !done {
        return;
      }
    }
  }

  lemma NothingSent(wire: seq<byte>, data: seq<byte>)
    ensures PartlySent(wire, data, wire)
  {
    assert wire == wire + data[..0];
  }

  lemma AllSent(wire: seq<byte>, data: seq<byte>)
    ensures PartlySent(wire, data, wire + data)
  {
    assert data[..|data|] == data;
  }
}
