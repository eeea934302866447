/** One client and the daemon over persistent connections, byte by byte: _request
    (mstore/client.py) against _serve_connection (mstore/server.py). */
module Session {
  import opened Core
  import opened Stream
  import opened Serving

  // ----- states -----

  datatype Mode = Reading | Writing | Done

  /** One connection, both ends of it.
      Client: unsent bytes of the current request, got of the current reply, awaiting from the
      start of a request until its reply is complete. Wires: up and down. Daemon: inbuf and
      outrest. asked and handled are histories. */
  datatype Conn<S, M> = Conn(
    unsent: seq<byte>, up: seq<byte>, inbuf: seq<byte>,
    outrest: seq<byte>, down: seq<byte>, got: seq<byte>,
    awaiting: bool, mode: Mode,
    asked: seq<M>, handled: seq<Exchange<S, M>>)

  /** A reply that _request has handed to its caller: the k-th request of a connection. */
  datatype Return<M> = Return(thread: nat, conn: nat, k: nat, request: M, reply: M)

  /** holder is the thread inside _request, current the connection the client keeps. */
  datatype State<S, M> = State(
    conns: seq<Conn<S, M>>, current: Option<nat>, holder: Option<nat>, closed: bool,
    daemon: S, returned: seq<Return<M>>)

  function NewConn<S, M>(): Conn<S, M> {
    Conn([], [], [], [], [], [], false, Reading, [], [])
  }

  function Start<S, M>(daemon: S): State<S, M> {
    State([], None, None, false, daemon, [])
  }

  /** What a receive loop of recv_frame_with_optional_fd makes of the bytes it holds. */
  datatype Progress<M> = More | Failed(why: Trouble) | Got(message: M)

  function Assess<M>(c: Codec<M>, buf: seq<byte>): Progress<M> {
    if |buf| < HEADER_SIZE then More
    else if Announced(buf) > MAX_FRAME then Failed(Oversized)
    else if |buf| < HEADER_SIZE + Announced(buf) then More
    else if |buf| > HEADER_SIZE + Announced(buf) then Failed(ExtraBytes)
    else match DecodeFrame(c, buf) case Ok(m) => Got(m) case Err(e) => Failed(e)
  }

  /** The limit of the next receive: a large first read, then exactly what is missing. */
  function Limit(buf: seq<byte>): int {
    if buf == [] then FIRST_READ
    else if |buf| < HEADER_SIZE then HEADER_SIZE - |buf|
    else HEADER_SIZE + Announced(buf) - |buf|
  }

  // ----- steps -----

  datatype Action<S, M> =
    | Begin(thread: nat, request: M)
    | ClientSends(n: nat)
    | ClientReceives(n: nat)
    | ClientFails
    | ClientCloses
    | DaemonReceives(conn: nat, n: nat, sendRaises: bool)
    | DaemonSends(conn: nat, n: nat)
    | DaemonEnds(conn: nat)
    | OtherClients(daemon: S)

  predicate Busy<S, M>(s: State<S, M>) {
    s.holder.Some? && s.current.Some? && s.current.value < |s.conns|
  }

  predicate Enabled<S, M>(s: State<S, M>, a: Action<S, M>) {
    match a
    case Begin(_, _) => s.holder.None? && !s.closed
    case ClientSends(n) => Busy(s) && 0 < n <= |s.conns[s.current.value].unsent|
    case ClientReceives(n) =>
      Busy(s) && var c := s.conns[s.current.value];
      c.unsent == [] && 0 < n <= |c.down| && n <= Limit(c.got)
    case ClientFails => Busy(s)
    case ClientCloses => s.holder.None?
    case DaemonReceives(i, n, _) =>
      i < |s.conns| && s.conns[i].mode.Reading? && 0 < n <= |s.conns[i].up| && n <= Limit(s.conns[i].inbuf)
    case DaemonSends(i, n) => i < |s.conns| && s.conns[i].mode.Writing? && 0 < n <= |s.conns[i].outrest|
    case DaemonEnds(i) => i < |s.conns|
    case OtherClients(_) => true
  }

  /** The client gives its connection up, after an error or for good. */
  function Drop<S, M>(s: State<S, M>): State<S, M> {
    s.(current := None, holder := None)
  }

  /** _ensure_connection. */
  function Connected<S, M>(s: State<S, M>): State<S, M> {
    if s.current.Some? then s else s.(conns := s.conns + [NewConn()], current := Some(|s.conns|))
  }

  function Asks<S, M>(c: Conn<S, M>, request: M, frame: seq<byte>): Conn<S, M> {
    c.(unsent := frame, awaiting := true, asked := c.asked + [request])
  }

  function DoBegin<S, M>(svc: Service<S, M>, s: State<S, M>, thread: nat, request: M): State<S, M> {
    var t := Connected(s);
    match EncodeFrame(svc.codec, request)
    case Err(_) => Drop(t)
    case Ok(frame) =>
      if t.current.value < |t.conns| then
        t.(conns := t.conns[t.current.value := Asks(t.conns[t.current.value], request, frame)], holder := Some(thread))
      else s
  }

  function ConnSends<S, M>(c: Conn<S, M>, n: nat): Conn<S, M>
    requires n <= |c.unsent|
  {
    c.(unsent := c.unsent[n..], up := c.up + c.unsent[..n])
  }

  function ConnReceives<S, M>(c: Conn<S, M>, n: nat): Conn<S, M>
    requires n <= |c.down|
  {
    c.(down := c.down[n..], got := c.got + c.down[..n])
  }

  function DoReceive<S, M>(svc: Service<S, M>, s: State<S, M>, n: nat): State<S, M>
    requires Enabled(s, ClientReceives(n))
  {
    var i := s.current.value;
    var c := ConnReceives(s.conns[i], n);
    match Assess(svc.codec, c.got)
    case More => s.(conns := s.conns[i := c])
    case Failed(_) => Drop(s.(conns := s.conns[i := c]))
    case Got(m) =>
      if |c.asked| == 0 then s else Deliver(s, i, c.(got := [], awaiting := false), m)
  }

  /** _request ends with a reply. */
  function Deliver<S, M>(s: State<S, M>, i: nat, c: Conn<S, M>, m: M): State<S, M>
    requires s.holder.Some? && i < |s.conns| && |c.asked| > 0
  {
    var r := Return(s.holder.value, i, |c.asked| - 1, c.asked[|c.asked| - 1], m);
    s.(conns := s.conns[i := c], holder := None, returned := s.returned + [r])
  }

  function ConnTakes<S, M>(c: Conn<S, M>, n: nat): Conn<S, M>
    requires n <= |c.up|
  {
    c.(up := c.up[n..], inbuf := c.inbuf + c.up[..n])
  }

  /** The daemon has read a whole request. */
  function ConnHandles<S, M>(svc: Service<S, M>, c: Conn<S, M>, daemon: S, m: M, sendRaises: bool): Conn<S, M> {
    var reply := Outgoing(svc, svc.handle(daemon, m).1, sendRaises);
    c.(inbuf := [], outrest := Bytes(svc.codec, reply), mode := if reply.Some? then Writing else Done,
       handled := c.handled + [Exchange(m, daemon, reply)])
  }

  /** The daemon reports a bad stream once and ends the connection; how much of the report
      goes out does not matter here, so all of it does. */
  function ConnComplains<S, M>(svc: Service<S, M>, c: Conn<S, M>, why: Trouble): Conn<S, M> {
    c.(down := c.down + Bytes(svc.codec, Some(svc.complaint(why))), mode := Done)
  }

  function DoDaemonReceive<S, M>(svc: Service<S, M>, s: State<S, M>, i: nat, n: nat, sendRaises: bool): State<S, M>
    requires Enabled(s, DaemonReceives(i, n, sendRaises))
  {
    var c := ConnTakes(s.conns[i], n);
    match Assess(svc.codec, c.inbuf)
    case More => s.(conns := s.conns[i := c])
    case Failed(why) => s.(conns := s.conns[i := ConnComplains(svc, c, why)])
    case Got(m) =>
      s.(conns := s.conns[i := ConnHandles(svc, c, s.daemon, m, sendRaises)], daemon := svc.handle(s.daemon, m).0)
  }

  function ConnReplies<S, M>(c: Conn<S, M>, n: nat): Conn<S, M>
    requires n <= |c.outrest|
  {
    c.(down := c.down + c.outrest[..n], outrest := c.outrest[n..],
       mode := if n == |c.outrest| then Reading else Writing)
  }

  function Do<S, M>(svc: Service<S, M>, s: State<S, M>, a: Action<S, M>): State<S, M>
    requires Enabled(s, a)
  {
    match a
    case Begin(t, m) => DoBegin(svc, s, t, m)
    case ClientSends(n) => s.(conns := s.conns[s.current.value := ConnSends(s.conns[s.current.value], n)])
    case ClientReceives(n) => DoReceive(svc, s, n)
    case ClientFails => Drop(s)
    case ClientCloses => Drop(s).(closed := true)
    case DaemonReceives(i, n, raises) => DoDaemonReceive(svc, s, i, n, raises)
    case DaemonSends(i, n) => s.(conns := s.conns[i := ConnReplies(s.conns[i], n)])
    case DaemonEnds(i) => s.(conns := s.conns[i := s.conns[i].(mode := Done)])
    case OtherClients(d) => s.(daemon := d)
  }

  predicate Run<S, M>(svc: Service<S, M>, s: State<S, M>, acts: seq<Action<S, M>>)
    decreases |acts|
  {
    acts == [] || (Enabled(s, acts[0]) && Run(svc, Do(svc, s, acts[0]), acts[1..]))
  }

  function After<S, M>(svc: Service<S, M>, s: State<S, M>, acts: seq<Action<S, M>>): State<S, M>
    requires Run(svc, s, acts)
    decreases |acts|
  {
    if acts == [] then s else After(svc, Do(svc, s, acts[0]), acts[1..])
  }

  // ----- one connection -----

  /** Nothing is on its way in either direction. */
  ghost predicate Silent<S, M>(c: Conn<S, M>) {
    c.unsent == [] && c.up == [] && c.inbuf == [] && c.outrest == [] && c.down == [] && c.got == []
  }

  /** The current request is somewhere between client and daemon, in one piece. */
  ghost predicate Outbound<S, M>(svc: Service<S, M>, c: Conn<S, M>) {
    && |c.asked| == |c.handled| + 1
    && EncodeFrame(svc.codec, c.asked[|c.handled|]) == Ok(c.inbuf + c.up + c.unsent)
    && c.down == [] && c.got == [] && c.outrest == [] && !c.mode.Writing?
  }

  /** The reply to the current request is on its way back, in one piece. */
  ghost predicate Inbound<S, M>(svc: Service<S, M>, c: Conn<S, M>) {
    && |c.asked| == |c.handled| > 0
    && c.got + c.down + c.outrest == Bytes(svc.codec, c.handled[|c.handled| - 1].reply)
    && (c.handled[|c.handled| - 1].reply.None? ==> c.mode.Done?)
    && c.inbuf == [] && c.up == [] && c.unsent == []
    && (c.mode.Reading? ==> c.outrest == []) && (c.mode.Writing? ==> c.outrest != [])
  }

  ghost predicate Answered<S, M>(svc: Service<S, M>, c: Conn<S, M>) {
    && |c.handled| <= |c.asked|
    && (forall k :: 0 <= k < |c.handled| ==> c.handled[k].request == c.asked[k] && Genuine(svc, c.handled[k]))
  }

  /** What both ends keep about a connection, whether or not the client still holds it. */
  ghost predicate ConnInv<S, M>(svc: Service<S, M>, c: Conn<S, M>) {
    && Answered(svc, c)
    && if !c.awaiting then Silent(c) && |c.asked| == |c.handled| && !c.mode.Writing?
       else Outbound(svc, c) || Inbound(svc, c)
  }

  /** A beginning of a frame asks for more, the whole frame yields its message. */
  lemma AssessFrame<M(!new)>(c: Codec<M>, m: M, buf: seq<byte>)
    requires Lawful(c) && EncodeFrame(c, m).Ok? && buf <= EncodeFrame(c, m).value
    ensures Assess(c, buf) == if buf == EncodeFrame(c, m).value then Got(m) else More
  {
    var f := EncodeFrame(c, m).value;
    FrameAnnounces(c, m, []);
    assert f + [] == f;
    if |buf| >= HEADER_SIZE {
      assert buf[..HEADER_SIZE] == f[..HEADER_SIZE];
    }
    if |buf| == |f| {
      assert buf == f;
      FrameComesOff(c, m, []);
    }
  }

  /** Bytes that move from the front of one buffer to the end of the one before it. */
  lemma Moved(x: seq<byte>, y: seq<byte>, z: seq<byte>, n: nat)
    requires n <= |y|
    ensures (x + y[..n]) + y[n..] + z == x + y + z
    ensures x + y[..n] <= x + y + z
    ensures x + y[..n] == x + y + z <==> y[n..] + z == []
  {
    assert y[..n] + y[n..] == y;
    assert (x + y[..n]) + (y[n..] + z) == x + y + z;
  }

  lemma MovedLast(x: seq<byte>, y: seq<byte>, z: seq<byte>, n: nat)
    requires n <= |z|
    ensures x + (y + z[..n]) + z[n..] == x + y + z
  {
    assert z[..n] + z[n..] == z;
    assert x + (y + z[..n]) + z[n..] == (x + y) + (z[..n] + z[n..]);
  }

  lemma ConnSendsKeeps<S, M>(svc: Service<S, M>, c: Conn<S, M>, n: nat)
    requires ConnInv(svc, c) && 0 < n <= |c.unsent|
    ensures ConnInv(svc, ConnSends(c, n))
  {
    MovedLast(c.inbuf, c.up, c.unsent, n);
  }

  /** The daemon's receive finds a beginning of the request or the request. */
  lemma DaemonAssesses<S, M(!new)>(svc: Service<S, M>, c: Conn<S, M>, n: nat)
    requires Lawful(svc.codec) && ConnInv(svc, c) && 0 < n <= |c.up|
    ensures Outbound(svc, c) && Outbound(svc, ConnTakes(c, n))
    ensures var d := ConnTakes(c, n);
      Assess(svc.codec, d.inbuf) == if d.up + d.unsent == [] then Got(c.asked[|c.handled|]) else More
  {
    Moved(c.inbuf, c.up, c.unsent, n);
    AssessFrame(svc.codec, c.asked[|c.handled|], ConnTakes(c, n).inbuf);
  }

  lemma ConnTakesKeeps<S, M(!new)>(svc: Service<S, M>, c: Conn<S, M>, n: nat, daemon: S, sendRaises: bool)
    requires Lawful(svc.codec) && ConnInv(svc, c) && 0 < n <= |c.up|
    ensures var d := ConnTakes(c, n);
      match Assess(svc.codec, d.inbuf)
      case More => ConnInv(svc, d)
      case Failed(_) => false
      case Got(m) => ConnInv(svc, ConnHandles(svc, d, daemon, m, sendRaises))
  {
    DaemonAssesses(svc, c, n);
    var d := ConnTakes(c, n);
    if d.up + d.unsent == [] {
      var e := ConnHandles(svc, d, daemon, c.asked[|c.handled|], sendRaises);
      assert e.got + e.down + e.outrest == e.outrest;
      assert Inbound(svc, e);
    }
  }

  lemma ConnRepliesKeeps<S, M>(svc: Service<S, M>, c: Conn<S, M>, n: nat)
    requires ConnInv(svc, c) && c.mode.Writing? && 0 < n <= |c.outrest|
    ensures ConnInv(svc, ConnReplies(c, n))
  {
    MovedLast(c.got, c.down, c.outrest, n);
  }

  /** The reply stays in one piece. */
  lemma ReplyMoves<S, M>(svc: Service<S, M>, c: Conn<S, M>, n: nat)
    requires ConnInv(svc, c) && 0 < n <= |c.down|
    ensures Inbound(svc, c) && Inbound(svc, ConnReceives(c, n)) && c.handled[|c.handled| - 1].reply.Some?
  {
    Moved(c.got, c.down, c.outrest, n);
  }

  /** The client's receive finds a beginning of the daemon's last reply, or that reply. */
  lemma ClientAssesses<S, M(!new)>(svc: Service<S, M>, c: Conn<S, M>, n: nat)
    requires Lawful(svc.codec) && Inbound(svc, c) && c.handled[|c.handled| - 1].reply.Some? && 0 < n <= |c.down|
    ensures var d := ConnReceives(c, n);
      Assess(svc.codec, d.got) ==
        if d.down + d.outrest == [] then Got(c.handled[|c.handled| - 1].reply.value) else More
  {
    Moved(c.got, c.down, c.outrest, n);
    AssessFrame(svc.codec, c.handled[|c.handled| - 1].reply.value, ConnReceives(c, n).got);
  }

  /** The last request handled was answered by m, and it is the last one asked. */
  ghost predicate RepliesLast<S, M>(c: Conn<S, M>, m: M) {
    |c.asked| == |c.handled| > 0 && c.handled[|c.handled| - 1].reply == Some(m)
  }

  lemma ConnReceivesKeeps<S, M(!new)>(svc: Service<S, M>, c: Conn<S, M>, n: nat)
    requires Lawful(svc.codec) && ConnInv(svc, c) && c.awaiting && 0 < n <= |c.down|
    ensures var d := ConnReceives(c, n);
      match Assess(svc.codec, d.got)
      case More => ConnInv(svc, d)
      case Failed(_) => false
      case Got(m) => ConnInv(svc, d.(got := [], awaiting := false)) && RepliesLast(d, m)
  {
    ReplyMoves(svc, c, n);
    ClientAssesses(svc, c, n);
  }

  // ----- the whole system -----

  /** A returned reply is the one the daemon sent to that very request. */
  ghost predicate Paired<S, M>(s: State<S, M>, r: Return<M>) {
    && r.conn < |s.conns| && r.k < |s.conns[r.conn].handled| && r.k < |s.conns[r.conn].asked|
    && s.conns[r.conn].asked[r.k] == r.request
    && s.conns[r.conn].handled[r.k].request == r.request
    && s.conns[r.conn].handled[r.k].reply == Some(r.reply)
  }

  ghost predicate Older<S, M>(s: State<S, M>, r: Return<M>) {
    r.conn < |s.conns| && (s.conns[r.conn].awaiting ==> r.k + 1 < |s.conns[r.conn].asked|)
  }

  ghost predicate Inv<S, M>(svc: Service<S, M>, s: State<S, M>) {
    && (s.current.Some? ==> s.current.value < |s.conns|)
    && (s.holder.Some? ==> s.current.Some?)
    && (s.current.Some? ==> (s.holder.Some? <==> s.conns[s.current.value].awaiting))
    && (forall i :: 0 <= i < |s.conns| ==> ConnInv(svc, s.conns[i]))
    && (forall j :: 0 <= j < |s.returned| ==> Paired(s, s.returned[j]) && Older(s, s.returned[j]))
    && (forall i, j :: 0 <= i < j < |s.returned| ==>
          s.returned[i].conn != s.returned[j].conn || s.returned[i].k != s.returned[j].k)
  }

  lemma StartsSound<S, M>(svc: Service<S, M>, daemon: S)
    ensures Inv(svc, Start<S, M>(daemon))
  {
  }

  /** A step that touches one connection, keeps its histories growing and returns nothing. */
  ghost predicate Extends<S, M>(c: Conn<S, M>, d: Conn<S, M>) {
    c.asked <= d.asked && c.handled <= d.handled && (d.awaiting ==> c.awaiting && c.asked == d.asked)
  }

  /** Such a step keeps everything that concerns the returned replies. */
  lemma OthersStand<S, M>(svc: Service<S, M>, s: State<S, M>, i: nat, d: Conn<S, M>)
    requires Inv(svc, s) && i < |s.conns| && Extends(s.conns[i], d)
    ensures var t := s.(conns := s.conns[i := d]);
      forall j :: 0 <= j < |s.returned| ==> Paired(t, s.returned[j]) && Older(t, s.returned[j])
  {
    var t := s.(conns := s.conns[i := d]);
    forall j | 0 <= j < |s.returned| ensures Paired(t, s.returned[j]) && Older(t, s.returned[j]) {
      assert Paired(s, s.returned[j]) && Older(s, s.returned[j]);
    }
  }

  lemma BeginKeepsInv<S, M>(svc: Service<S, M>, s: State<S, M>, thread: nat, m: M)
    requires Inv(svc, s) && s.holder.None? && !s.closed
    ensures Inv(svc, DoBegin(svc, s, thread, m))
  {
    ConnectedKeepsInv(svc, s);
    if EncodeFrame(svc.codec, m).Ok? {
      AskKeepsInv(svc, Connected(s), thread, m);
    }
  }

  lemma ConnectedKeepsInv<S, M>(svc: Service<S, M>, s: State<S, M>)
    requires Inv(svc, s) && s.holder.None?
    ensures Inv(svc, Connected(s))
  {
    var t := Connected(s);
    forall j | 0 <= j < |s.returned| ensures Paired(t, s.returned[j]) && Older(t, s.returned[j]) {
      assert Paired(s, s.returned[j]) && Older(s, s.returned[j]);
    }
  }

  lemma AskKeepsInv<S, M>(svc: Service<S, M>, t: State<S, M>, thread: nat, m: M)
    requires Inv(svc, t) && t.holder.None? && t.current.Some? && EncodeFrame(svc.codec, m).Ok?
    ensures var i := t.current.value;
      Inv(svc, t.(conns := t.conns[i := Asks(t.conns[i], m, EncodeFrame(svc.codec, m).value)], holder := Some(thread)))
  {
    var i, f := t.current.value, EncodeFrame(svc.codec, m).value;
    var d := Asks(t.conns[i], m, f);
    assert d.inbuf + d.up + d.unsent == f;
    assert Outbound(svc, d);
    var u := t.(conns := t.conns[i := d], holder := Some(thread));
    forall j | 0 <= j < |t.returned| ensures Paired(u, t.returned[j]) && Older(u, t.returned[j]) {
      assert Paired(t, t.returned[j]) && Older(t, t.returned[j]);
    }
  }

  /** A step inside one connection. */
  lemma ConnStepKeepsInv<S, M>(svc: Service<S, M>, s: State<S, M>, i: nat, d: Conn<S, M>, daemon: S)
    requires Inv(svc, s) && i < |s.conns| && ConnInv(svc, d)
    requires Extends(s.conns[i], d) && d.awaiting == s.conns[i].awaiting
    ensures Inv(svc, s.(conns := s.conns[i := d], daemon := daemon))
  {
    OthersStand(svc, s, i, d);
    StandingReturns(s.(conns := s.conns[i := d]), s.(conns := s.conns[i := d], daemon := daemon));
  }

  /** Steps that leave the connections alone. */
  lemma QuietStepKeepsInv<S, M>(svc: Service<S, M>, s: State<S, M>, t: State<S, M>)
    requires Inv(svc, s) && t.conns == s.conns && t.returned == s.returned
    requires (t.current.None? && t.holder.None?) || (t.current == s.current && t.holder == s.holder)
    ensures Inv(svc, t)
  {
    StandingReturns(s, t);
  }

  /** The new return joins the older ones. */
  lemma DeliverPairs<S, M>(svc: Service<S, M>, s: State<S, M>, i: nat, d: Conn<S, M>, m: M)
    requires Inv(svc, s) && s.holder.Some? && i < |s.conns|
    requires s.conns[i].awaiting && !d.awaiting && d.asked == s.conns[i].asked && d.handled == s.conns[i].handled
    requires Answered(svc, d) && RepliesLast(d, m)
    ensures var t := Deliver(s, i, d, m);
      forall j :: 0 <= j < |t.returned| ==> Paired(t, t.returned[j]) && Older(t, t.returned[j])
  {
    OthersStand(svc, s, i, d);
    var t := Deliver(s, i, d, m);
    StandingReturns(s.(conns := s.conns[i := d]), t);
    LastPairs(s, i, d, m);
  }

  lemma LastPairs<S, M>(s: State<S, M>, i: nat, d: Conn<S, M>, m: M)
    requires s.holder.Some? && i < |s.conns| && !d.awaiting && RepliesLast(d, m)
    requires |d.handled| > 0 && d.handled[|d.handled| - 1].request == d.asked[|d.asked| - 1]
    ensures var t := Deliver(s, i, d, m);
      Paired(t, t.returned[|s.returned|]) && Older(t, t.returned[|s.returned|])
  {
  }

  /** The reply is complete. */
  lemma DeliverKeepsInv<S, M>(svc: Service<S, M>, s: State<S, M>, i: nat, d: Conn<S, M>, m: M)
    requires Inv(svc, s) && s.holder.Some? && s.current == Some(i) && i < |s.conns|
    requires s.conns[i].awaiting && !d.awaiting && d.asked == s.conns[i].asked && d.handled == s.conns[i].handled
    requires ConnInv(svc, d) && RepliesLast(d, m)
    ensures Inv(svc, Deliver(s, i, d, m))
  {
    DeliverPairs(svc, s, i, d, m);
    var t := Deliver(s, i, d, m);
    forall j | 0 <= j < |s.returned|
      ensures t.returned[j].conn != i || t.returned[j].k != |d.asked| - 1
    {
      assert Older(s, s.returned[j]);
    }
  }

  lemma ReceiveDoes<S, M>(svc: Service<S, M>, s: State<S, M>, n: nat)
    requires Enabled(s, ClientReceives(n))
    ensures var i := s.current.value; var d := ConnReceives(s.conns[i], n);
      match Assess(svc.codec, d.got)
      case More => DoReceive(svc, s, n) == s.(conns := s.conns[i := d])
      case Failed(_) => true
      case Got(m) =>
        |d.asked| > 0 ==> DoReceive(svc, s, n) == Deliver(s, i, d.(got := [], awaiting := false), m)
  {
  }

  lemma ClientReceiveKeepsInv<S, M(!new)>(svc: Service<S, M>, s: State<S, M>, n: nat)
    requires Lawful(svc.codec) && Inv(svc, s) && Enabled(s, ClientReceives(n))
    ensures Inv(svc, DoReceive(svc, s, n))
  {
    var i := s.current.value;
    var d := ConnReceives(s.conns[i], n);
    ConnReceivesKeeps(svc, s.conns[i], n);
    ReceiveDoes(svc, s, n);
    var p := Assess(svc.codec, d.got);
    if p.Got? {
      DeliverKeepsInv(svc, s, i, d.(got := [], awaiting := false), p.message);
    } else {
      ConnStepKeepsInv(svc, s, i, d, s.daemon);
    }
  }

  lemma DaemonReceiveKeepsInv<S, M(!new)>(svc: Service<S, M>, s: State<S, M>, i: nat, n: nat, sendRaises: bool)
    requires Lawful(svc.codec) && Inv(svc, s) && Enabled(s, DaemonReceives(i, n, sendRaises))
    ensures Inv(svc, DoDaemonReceive(svc, s, i, n, sendRaises))
  {
    var c := ConnTakes(s.conns[i], n);
    ConnTakesKeeps(svc, s.conns[i], n, s.daemon, sendRaises);
    match Assess(svc.codec, c.inbuf)
    case More => ConnStepKeepsInv(svc, s, i, c, s.daemon);
    case Failed(_) =>
    case Got(m) => ConnStepKeepsInv(svc, s, i, ConnHandles(svc, c, s.daemon, m, sendRaises), svc.handle(s.daemon, m).0);
  }

  lemma ClientSendKeepsInv<S, M>(svc: Service<S, M>, s: State<S, M>, n: nat)
    requires Inv(svc, s) && Enabled(s, ClientSends(n))
    ensures Inv(svc, Do(svc, s, ClientSends(n)))
  {
    ConnSendsKeeps(svc, s.conns[s.current.value], n);
    ConnStepKeepsInv(svc, s, s.current.value, ConnSends(s.conns[s.current.value], n), s.daemon);
  }

  lemma DaemonSendKeepsInv<S, M>(svc: Service<S, M>, s: State<S, M>, i: nat, n: nat)
    requires Inv(svc, s) && Enabled(s, DaemonSends(i, n))
    ensures Inv(svc, Do(svc, s, DaemonSends(i, n)))
  {
    ConnRepliesKeeps(svc, s.conns[i], n);
    ConnStepKeepsInv(svc, s, i, ConnReplies(s.conns[i], n), s.daemon);
  }

  lemma StepKeepsInv<S, M(!new)>(svc: Service<S, M>, s: State<S, M>, a: Action<S, M>)
    requires Lawful(svc.codec) && Inv(svc, s) && Enabled(s, a)
    ensures Inv(svc, Do(svc, s, a))
  {
    match a
    case Begin(t, m) => BeginKeepsInv(svc, s, t, m);
    case ClientSends(n) => ClientSendKeepsInv(svc, s, n);
    case ClientReceives(n) => ClientReceiveKeepsInv(svc, s, n);
    case DaemonReceives(i, n, raises) => DaemonReceiveKeepsInv(svc, s, i, n, raises);
    case DaemonSends(i, n) => DaemonSendKeepsInv(svc, s, i, n);
    case DaemonEnds(i) => ConnStepKeepsInv(svc, s, i, s.conns[i].(mode := Done), s.daemon);
    case _ => QuietStepKeepsInv(svc, s, Do(svc, s, a));
  }

  lemma StandingReturns<S, M>(s: State<S, M>, t: State<S, M>)
    requires s.conns == t.conns
    ensures forall r :: Paired(s, r) && Older(s, r) ==> Paired(t, r) && Older(t, r)
  {
  }

  lemma {:induction false} RunKeepsInv<S, M(!new)>(svc: Service<S, M>, s: State<S, M>, acts: seq<Action<S, M>>)
    requires Lawful(svc.codec) && Inv(svc, s) && Run(svc, s, acts)
    ensures Inv(svc, After(svc, s, acts))
    decreases |acts|
  {
    if acts != [] {
      StepKeepsInv(svc, s, acts[0]);
      RunKeepsInv(svc, Do(svc, s, acts[0]), acts[1..]);
    }
  }

  // ----- what a caller of _request can rely on -----

  /** In every run every reply that _request returns is the one the daemon computed for that
      very request, and no handled request is returned twice. */
  lemma RepliesArePaired<S, M(!new)>(svc: Service<S, M>, daemon: S, acts: seq<Action<S, M>>)
    requires Lawful(svc.codec) && Run(svc, Start(daemon), acts)
    ensures var s := After(svc, Start(daemon), acts);
      && (forall j :: 0 <= j < |s.returned| ==> Paired(s, s.returned[j]))
      && (forall j :: 0 <= j < |s.returned| ==> Genuine(svc, s.conns[s.returned[j].conn].handled[s.returned[j].k]))
      && (forall i, j :: 0 <= i < j < |s.returned| ==>
            s.returned[i].conn != s.returned[j].conn || s.returned[i].k != s.returned[j].k)
  {
    StartsSound(svc, daemon);
    RunKeepsInv(svc, Start(daemon), acts);
  }

  /** While no request holds the lock, a connection that the client keeps has nothing on its
      way, and every request asked on it has been handled. */
  lemma FreeLockMeansSilence<S, M(!new)>(svc: Service<S, M>, daemon: S, acts: seq<Action<S, M>>)
    requires Lawful(svc.codec) && Run(svc, Start(daemon), acts)
    ensures var s := After(svc, Start(daemon), acts);
      s.holder.None? && s.current.Some? ==>
        && s.current.value < |s.conns| && Silent(s.conns[s.current.value])
        && |s.conns[s.current.value].asked| == |s.conns[s.current.value].handled|
  {
    StartsSound(svc, daemon);
    RunKeepsInv(svc, Start(daemon), acts);
  }

  /** On every connection, also one given up long ago, the daemon handles only requests that
      were asked there, in order, each at most once. */
  lemma HandledAtMostOnce<S, M(!new)>(svc: Service<S, M>, daemon: S, acts: seq<Action<S, M>>)
    requires Lawful(svc.codec) && Run(svc, Start(daemon), acts)
    ensures var s := After(svc, Start(daemon), acts);
      forall i :: 0 <= i < |s.conns| ==>
        && |s.conns[i].handled| <= |s.conns[i].asked| <= |s.conns[i].handled| + 1
        && forall k :: 0 <= k < |s.conns[i].handled| ==> s.conns[i].handled[k].request == s.conns[i].asked[k]
  {
    StartsSound(svc, daemon);
    RunKeepsInv(svc, Start(daemon), acts);
    var s := After(svc, Start(daemon), acts);
    forall i | 0 <= i < |s.conns|
      ensures |s.conns[i].handled| <= |s.conns[i].asked| <= |s.conns[i].handled| + 1
      ensures forall k :: 0 <= k < |s.conns[i].handled| ==> s.conns[i].handled[k].request == s.conns[i].asked[k]
    {
      assert ConnInv(svc, s.conns[i]);
    }
  }

  /** Neither side ever meets bytes beyond a frame, or any other malformed frame. */
  lemma StreamStaysInStep<S, M(!new)>(svc: Service<S, M>, daemon: S, acts: seq<Action<S, M>>, n: nat, i: nat,
      raises: bool)
    requires Lawful(svc.codec) && Run(svc, Start(daemon), acts)
    ensures var s := After(svc, Start(daemon), acts);
      && (Enabled(s, ClientReceives(n)) ==> !Assess(svc.codec, ConnReceives(s.conns[s.current.value], n).got).Failed?)
      && (Enabled(s, DaemonReceives(i, n, raises)) ==> !Assess(svc.codec, ConnTakes(s.conns[i], n).inbuf).Failed?)
  {
    StartsSound(svc, daemon);
    RunKeepsInv(svc, Start(daemon), acts);
    var s := After(svc, Start(daemon), acts);
    if Enabled(s, ClientReceives(n)) {
      RepliesAreInStep(svc, s.conns[s.current.value], n);
    }
    if Enabled(s, DaemonReceives(i, n, raises)) {
      RequestsAreInStep(svc, s.conns[i], n);
    }
  }

  lemma RepliesAreInStep<S, M(!new)>(svc: Service<S, M>, c: Conn<S, M>, n: nat)
    requires Lawful(svc.codec) && ConnInv(svc, c) && 0 < n <= |c.down|
    ensures !Assess(svc.codec, ConnReceives(c, n).got).Failed?
  {
    ReplyMoves(svc, c, n);
    ClientAssesses(svc, c, n);
  }

  lemma RequestsAreInStep<S, M(!new)>(svc: Service<S, M>, c: Conn<S, M>, n: nat)
    requires Lawful(svc.codec) && ConnInv(svc, c) && 0 < n <= |c.up|
    ensures !Assess(svc.codec, ConnTakes(c, n).inbuf).Failed?
  {
    DaemonAssesses(svc, c, n);
  }

  // ----- the runs are there -----

  /** s with the thread in a request on connection i, which is now c. */
  function Under<S, M>(s: State<S, M>, thread: nat, i: nat, c: Conn<S, M>): State<S, M>
    requires i < |s.conns|
  {
    s.(conns := s.conns[i := c], current := Some(i), holder := Some(thread))
  }

  /** A connection that is ready for a request. */
  ghost predicate Idle<S, M>(c: Conn<S, M>) {
    Silent(c) && !c.awaiting && c.mode.Reading? && |c.asked| == |c.handled|
  }

  /** The connection c with the request m, whose frame is f, on the wire. */
  function Sent<S, M>(c: Conn<S, M>, m: M, f: seq<byte>): Conn<S, M> {
    c.(up := f, awaiting := true, asked := c.asked + [m])
  }

  /** The connection c with the request handled and the bytes r of its reply ready. */
  function Handled<S, M>(c: Conn<S, M>, m: M, daemon: S, reply: M, r: seq<byte>): Conn<S, M> {
    c.(outrest := r, mode := Writing, awaiting := true, asked := c.asked + [m],
      handled := c.handled + [Exchange(m, daemon, Some(reply))])
  }

  lemma RequestGoesOut<S, M(!new)>(svc: Service<S, M>, s: State<S, M>, thread: nat, i: nat, m: M,
      rest: seq<Action<S, M>>) returns (acts: seq<Action<S, M>>)
    requires EncodeFrame(svc.codec, m).Ok? && s.holder.None? && !s.closed
    requires i < |Connected(s).conns| && Connected(s).current == Some(i) && Idle(Connected(s).conns[i])
    requires var t := Connected(s);
      Run(svc, Under(t, thread, i, Sent(t.conns[i], m, EncodeFrame(svc.codec, m).value)), rest)
    ensures Run(svc, s, acts)
    ensures var t := Connected(s);
      After(svc, s, acts) == After(svc, Under(t, thread, i, Sent(t.conns[i], m, EncodeFrame(svc.codec, m).value)), rest)
  {
    var t, f := Connected(s), EncodeFrame(svc.codec, m).value;
    var c1 := Asks(t.conns[i], m, f);
    var s1 := Under(t, thread, i, c1);
    assert Do(svc, s, Begin(thread, m)) == s1;
    assert ConnSends(c1, |f|) == Sent(t.conns[i], m, f);
    assert Do(svc, s1, ClientSends(|f|)) == Under(t, thread, i, Sent(t.conns[i], m, f));
    acts := Then(svc, s1, ClientSends(|f|), rest);
    acts := Then(svc, s, Begin(thread, m), acts);
  }

  lemma RequestIsHandled<S, M(!new)>(svc: Service<S, M>, s: State<S, M>, thread: nat, i: nat, m: M,
      rest: seq<Action<S, M>>) returns (acts: seq<Action<S, M>>)
    requires Lawful(svc.codec) && i < |s.conns| && Idle(s.conns[i])
    requires var f := EncodeFrame(svc.codec, m); f.Ok? && |f.value| <= FIRST_READ
    requires EncodeFrame(svc.codec, svc.handle(s.daemon, m).1).Ok?
    requires var (next, reply) := svc.handle(s.daemon, m);
      var c := Handled(s.conns[i], m, s.daemon, reply, EncodeFrame(svc.codec, reply).value);
      Run(svc, Under(s, thread, i, c).(daemon := next), rest)
    ensures var (next, reply) := svc.handle(s.daemon, m);
      var c := Handled(s.conns[i], m, s.daemon, reply, EncodeFrame(svc.codec, reply).value);
      var t := Under(s, thread, i, Sent(s.conns[i], m, EncodeFrame(svc.codec, m).value));
      Run(svc, t, acts) && After(svc, t, acts) == After(svc, Under(s, thread, i, c).(daemon := next), rest)
  {
    var f := EncodeFrame(svc.codec, m).value;
    var (next, reply) := svc.handle(s.daemon, m);
    var t := Under(s, thread, i, Sent(s.conns[i], m, f));
    var c := ConnTakes(t.conns[i], |f|);
    assert c == s.conns[i].(inbuf := f, awaiting := true, asked := s.conns[i].asked + [m]);
    AssessFrame(svc.codec, m, f);
    assert Assess(svc.codec, c.inbuf) == Got(m) && Outgoing(svc, reply, false) == Some(reply);
    var done := Handled(s.conns[i], m, s.daemon, reply, EncodeFrame(svc.codec, reply).value);
    assert ConnHandles(svc, c, s.daemon, m, false) == done;
    assert t.conns[i].inbuf == [] && Enabled(t, DaemonReceives(i, |f|, false));
    assert DoDaemonReceive(svc, t, i, |f|, false).conns == Under(s, thread, i, done).conns;
    acts := Then(svc, t, DaemonReceives(i, |f|, false), rest);
  }

  lemma ReplyComesBack<S, M(!new)>(svc: Service<S, M>, s: State<S, M>, thread: nat, i: nat, m: M, before: S, reply: M)
      returns (acts: seq<Action<S, M>>)
    requires Lawful(svc.codec) && i < |s.conns| && Idle(s.conns[i])
    requires var r := EncodeFrame(svc.codec, reply); r.Ok? && |r.value| <= FIRST_READ
    ensures var t := Under(s, thread, i, Handled(s.conns[i], m, before, reply, EncodeFrame(svc.codec, reply).value));
      Run(svc, t, acts) && var u := After(svc, t, acts);
      && u.returned == s.returned + [Return(thread, i, |s.conns[i].asked|, m, reply)]
      && u.daemon == s.daemon && u.holder == None && u.current == Some(i) && |u.conns| == |s.conns|
      && u.conns[i].mode.Reading?
  {
    var r := EncodeFrame(svc.codec, reply).value;
    var t := Under(s, thread, i, Handled(s.conns[i], m, before, reply, r));
    var c := ConnReplies(t.conns[i], |r|);
    var u := Do(svc, t, DaemonSends(i, |r|));
    assert u == Under(s, thread, i, c) && c.down == r;
    AssessFrame(svc.codec, reply, r);
    assert ConnReceives(c, |r|).got == r;
    assert Do(svc, u, ClientReceives(|r|)).returned
        == s.returned + [Return(thread, i, |s.conns[i].asked|, m, reply)];
    acts := Then(svc, u, ClientReceives(|r|), []);
    acts := Then(svc, t, DaemonSends(i, |r|), acts);
  }

  /** After any run, while the lock is free: a request whose frame and reply fit into one read
      can be answered in five steps, with what the daemon computes for it, on the connection
      that the client keeps (if the daemon still reads from it), or else on a new one. */
  lemma RequestsComplete<S, M(!new)>(svc: Service<S, M>, daemon: S, before: seq<Action<S, M>>, thread: nat, m: M)
      returns (acts: seq<Action<S, M>>, i: nat)
    requires Lawful(svc.codec) && Run(svc, Start(daemon), before)
    requires var s := After(svc, Start(daemon), before);
      && s.holder.None? && !s.closed
      && (s.current.Some? && s.current.value < |s.conns| ==> s.conns[s.current.value].mode.Reading?)
    requires var f := EncodeFrame(svc.codec, m); f.Ok? && |f.value| <= 0x1_0000
    requires var r := EncodeFrame(svc.codec, svc.handle(After(svc, Start(daemon), before).daemon, m).1);
      r.Ok? && |r.value| <= 0x1_0000
    ensures var s := After(svc, Start(daemon), before);
      var k := if i < |s.conns| then |s.conns[i].asked| else 0;
      Run(svc, s, acts) && var t := After(svc, s, acts);
      && t.returned == s.returned + [Return(thread, i, k, m, svc.handle(s.daemon, m).1)]
      && t.daemon == svc.handle(s.daemon, m).0 && t.holder == None && t.current == Some(i)
      && i < |t.conns| && t.conns[i].mode.Reading?
      && |t.conns| == |s.conns| + (if s.current.None? then 1 else 0)
      && i == if s.current.None? then |s.conns| else s.current.value
  {
    var s := After(svc, Start(daemon), before);
    StartsSound(svc, daemon);
    RunKeepsInv(svc, Start(daemon), before);
    var t := Connected(s);
    i := t.current.value;
    assert i < |t.conns| && Idle(t.conns[i]);
    var (next, reply) := svc.handle(s.daemon, m);
    acts := ReplyComesBack(svc, t.(daemon := next), thread, i, m, s.daemon, reply);
    acts := RequestIsHandled(svc, t, thread, i, m, acts);
    acts := RequestGoesOut(svc, s, thread, i, m, acts);
  }

  lemma Then<S, M>(svc: Service<S, M>, s: State<S, M>, a: Action<S, M>, rest: seq<Action<S, M>>)
      returns (acts: seq<Action<S, M>>)
    requires Enabled(s, a) && Run(svc, Do(svc, s, a), rest)
    ensures Run(svc, s, acts) && After(svc, s, acts) == After(svc, Do(svc, s, a), rest)
  {
    acts := [a] + rest;
    assert acts[1..] == rest;
  }

  /** A request that fails gives its connection up: after an error of its own, a request that is
      too long, or a malformed reply, the lock is free and no connection is kept. */
  lemma FailureDropsConnection<S, M>(svc: Service<S, M>, s: State<S, M>, a: Action<S, M>)
    requires Enabled(s, a)
    requires || a.ClientFails?
             || (a.Begin? && EncodeFrame(svc.codec, a.request).Err?)
             || (a.ClientReceives? && Assess(svc.codec, ConnReceives(s.conns[s.current.value], a.n).got).Failed?)
    ensures Do(svc, s, a).holder.None? && Do(svc, s, a).current.None? && Do(svc, s, a).returned == s.returned
  {
  }

  lemma {:induction false} ClosedForGood<S, M>(svc: Service<S, M>, s: State<S, M>, acts: seq<Action<S, M>>)
    requires s.closed && s.holder.None? && Run(svc, s, acts)
    ensures After(svc, s, acts).returned == s.returned
    decreases |acts|
  {
    if acts != [] {
      ClosedForGood(svc, Do(svc, s, acts[0]), acts[1..]);
    }
  }

  /** Once it has been closed, the client returns no reply any more. */
  lemma CloseIsFinal<S, M>(svc: Service<S, M>, s: State<S, M>, acts: seq<Action<S, M>>)
    requires Enabled(s, ClientCloses) && Run(svc, Do(svc, s, ClientCloses), acts)
    ensures After(svc, Do(svc, s, ClientCloses), acts).returned == s.returned
  {
    ClosedForGood(svc, Do(svc, s, ClientCloses), acts);
  }
}
