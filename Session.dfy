/** The session state machine of `_run` (BlynkLib.py:510-599), one loop body at
    a time. Connecting: open the transport, log in with the auth token
    (bypassing the rate cap), wait for the five-byte reply and accept it when
    its status is 200 and its id nonzero, then announce the hardware and call
    the on-connect callback. Steady state: read one header; id 0 closes; RSP
    may settle the outstanding heartbeat; PING is answered with (RSP, same id,
    200); HW and BRIDGE bodies go to the dispatcher; any other type closes;
    then the liveness step runs and closes the session when it reports the
    server dead. */
module Session {
  import opened Wire
  import opened Types
  import opened MsgIds
  import opened Transmit
  import opened Reassembly
  import opened Liveness
  import opened Dispatch
  import opened Registry

  // ---------------------------------------------------------------------------
  // Prologues

  /** The start of _run (BlynkLib.py:515-522): the receive buffer, the id
      counter, the configured flag, the transmit counter and the liveness
      second are reset here and nowhere else. */
  function RunReset(w: World): World
  {
    w.(inb := w.inb.(rx := []), out := w.out.(msgId := 1, txCount := 0), pinsConfigured := false, mTime := 0)
  }

  /** _run's prologue: reset, then start every user task once. */
  function RunPrologueEffect(w: World, respond: Responder, tasks: seq<UserTask>): (World, Outcome<()>)
  {
    StartTasks(RunReset(w), respond, tasks)
  }

  /** On entering the steady loop (BlynkLib.py:569-571): no heartbeat
      outstanding, none sent yet, and a fresh transmit budget. */
  function SteadyReset(w: World): World
  {
    w.(hbTime := 0, lastHbId := 0, out := w.out.(txCount := 0))
  }

  lemma RunPrologueSpec(w: World, respond: Responder, tasks: seq<UserTask>)
    requires WorldValid(w)
    ensures var (w2, r) := RunPrologueEffect(w, respond, tasks);
      && w2.inb.rx == [] && w2.out.msgId == 1 && w2.out.txCount == 0
      && !w2.pinsConfigured && w2.mTime == 0
      && w2.state == w.state && w2.pins == w.pins && w2.inb.inbox == w.inb.inbox
      && (r.Ok? ==> w2.calls == w.calls + GatedCalls(tasks, w.state))
      && WorldValid(w2)
  {
    StartTasksSpec(RunReset(w), respond, tasks);
  }

  // ---------------------------------------------------------------------------
  // Connecting (BlynkLib.py:529-565)

  /** The outcome of the next connect attempt; a transport with nothing
      scripted connects. */
  function NextConnect(c: seq<bool>): bool {
    c == [] || c[0]
  }

  function AfterConnect(c: seq<bool>): seq<bool> {
    if c == [] then [] else c[1..]
  }

  /** The transport after a successful connect. */
  function Connected(w: World): World
  {
    w.(state := Connecting, connects := AfterConnect(w.connects), open := true)
  }

  /** State AUTHENTICATING, then the login frame: a header (LOGIN, fresh id,
      token length) followed by the token, sent despite the rate cap. */
  function LoginEffect(w: World, token: Bytes): (World, Outcome<()>)
  {
    var id := NextId(w.out.msgId);
    var w1 := w.(state := Authenticating, out := w.out.(msgId := id));
    match Pack(Header(MSG_LOGIN, id, |token|))
    case None => (w1, Err(StructError))
    case Some(hdr) =>
      var (o, r) := SendEffect(w1.out, hdr + token, true);
      (w1.(out := o), r)
  }

  /** The auth decision: the reply's status field is 200 and its id is not 0.
      Its message type is not looked at. */
  predicate AuthAccepted(reply: Bytes)
    requires |reply| == HDR_LEN
  {
    var h := Unpack(reply);
    h.length == STA_SUCCESS && h.msgId != 0
  }

  /** The hardware-info announcement: heartbeat period, device and cpu names. */
  const HW_INFO_ARGS: seq<Bytes> := [
    [0x68, 0x2d, 0x62, 0x65, 0x61, 0x74],  // h-beat
    [0x31, 0x30],                          // str(HB_PERIOD)
    [0x64, 0x65, 0x76],                    // dev
    [0x57, 0x69, 0x50, 0x79],              // WiPy
    [0x63, 0x70, 0x75],                    // cpu
    [0x43, 0x43, 0x33, 0x32, 0x30, 0x30]   // CC3200
  ]

  /** The announcement carries the heartbeat period as decimal text, is short,
      and its fields are free of NUL. */
  lemma HwInfoArgsClean()
    ensures HW_INFO_ARGS[1] == IntText(HB_PERIOD)
    ensures AllNoNul(HW_INFO_ARGS) && |Join(HW_INFO_ARGS)| < 0x1_0000
  {
    assert IntText(HB_PERIOD) == [0x31, 0x30];
    var a := HW_INFO_ARGS;
    forall i | 0 <= i < |a|
      ensures NoNul(a[i])
    {
    }
    JoinLength(a);
    assert TotalLength(a) == 24;
  }

  /** After an accepted login: AUTHENTICATED, the hardware-info frame (subject
      to the rate cap), then the on-connect callback if one is set. */
  function AuthenticatedEffect(w: World, respond: Responder, onConnect: Option<nat>): (World, Outcome<()>)
  {
    var w1 := w.(state := Authenticated);
    var (o, r) := EmitEffect(w1.out, MSG_HW_INFO, HW_INFO_ARGS, false);
    var w2 := w1.(out := o);
    if r.Err? then (w2, r)
    else match onConnect
      case None => (w2, Ok(()))
      case Some(h) =>
        var (w3, re) := Invoke(w2, respond, ConnectCall(h));
        (w3, if re.Value? then Ok(()) else Err(CallbackRaised))
  }

  /** One pass of `while self.state != AUTHENTICATED`: when a connection is
      wanted, connect (a failure closes and the loop goes round again), log in,
      and read the reply with _recv; no reply or a rejected one closes the
      transport. Without a connection request the pass only sleeps. */
  function ConnectStep(w: World, respond: Responder, token: Bytes, onConnect: Option<nat>): (World, Outcome<()>)
  {
    if !w.doConnect then (w, Ok(()))
    else if !NextConnect(w.connects) then (Close(w.(state := Connecting, connects := AfterConnect(w.connects))), Ok(()))
    else
      var (w2, r2) := LoginEffect(Connected(w), token);
      if r2.Err? then (w2, r2)
      else
        var (inb, d) := RecvEffect(w2.inb, HDR_LEN);
        var w3 := w2.(inb := inb);
        if d.Err? then (w3, Err(d.exc))
        else if d.value == [] then (Close(w3), Ok(()))
        else if !AuthAccepted(d.value) then (Close(w3), Ok(()))
        else AuthenticatedEffect(w3, respond, onConnect)
  }

  /** The reply the login waits for, as _recv(HDR_LEN) hands it out. */
  function AuthReply(w: World, token: Bytes): Outcome<Bytes>
  {
    RecvEffect(LoginEffect(Connected(w), token).0.inb, HDR_LEN).1
  }

  /** The session invariant: the id counter and the heartbeat id are in range,
      virtual pins within 0..127, and an authenticated session has its
      transport open. */
  predicate SessionValid(w: World) {
    WorldValid(w) && (w.state == Authenticated ==> w.open)
  }

  /** Without a connection request a pass changes nothing. */
  lemma ConnectIdle(w: World, respond: Responder, token: Bytes, onConnect: Option<nat>)
    requires !w.doConnect
    ensures ConnectStep(w, respond, token, onConnect) == (w, Ok(()))
  {
  }

  /** A failed connect closes: DISCONNECTED, transport closed, one connect
      attempt used, nothing sent or received. */
  lemma ConnectFails(w: World, respond: Responder, token: Bytes, onConnect: Option<nat>)
    requires w.doConnect && !NextConnect(w.connects)
    ensures ConnectStep(w, respond, token, onConnect) ==
      (w.(state := Disconnected, open := false, connects := AfterConnect(w.connects)), Ok(()))
  {
  }

  /** The login frame: header (LOGIN, next id, token length), then the token;
      it goes out even past the rate cap when the socket accepts it. */
  lemma LoginSends(w: World, token: Bytes)
    requires WorldValid(w) && |token| < 0x1_0000
    requires NextAttempt(w.out.script) == Accepted
    ensures var (w2, r) := LoginEffect(w, token);
      var id := NextId(w.out.msgId);
      && r == Ok(())
      && w2.state == Authenticating
      && w2.out.msgId == id
      && Pack(Header(MSG_LOGIN, id, |token|)).Some?
      && w2.out.wire == w.out.wire + [Pack(Header(MSG_LOGIN, id, |token|)).value + token]
      && Unpack(w2.out.wire[|w.out.wire|][..HDR_LEN]) == Header(MSG_LOGIN, id, |token|)
      && w2.out.wire[|w.out.wire|][HDR_LEN..] == token
  {
    NextIdRange(w.out.msgId);
    var id := NextId(w.out.msgId);
    var hdr := Pack(Header(MSG_LOGIN, id, |token|)).value;
    UnpackPack(Header(MSG_LOGIN, id, |token|));
    assert (hdr + token)[..HDR_LEN] == hdr;
    assert (hdr + token)[HDR_LEN..] == token;
  }

  /** The auth decision, in full: with the login sent, an empty reply (timeout)
      closes without raising; a five-byte reply makes the session
      AUTHENTICATED exactly when its status is 200 and its id nonzero, and
      closes it otherwise. */
  lemma AuthDecision(w: World, respond: Responder, token: Bytes, onConnect: Option<nat>)
    requires w.doConnect && NextConnect(w.connects)
    requires LoginEffect(Connected(w), token).1.Ok?
    ensures var (w2, r) := ConnectStep(w, respond, token, onConnect);
      var reply := AuthReply(w, token);
      && (reply == Ok([]) ==> r == Ok(()) && w2.state == Disconnected && !w2.open)
      && (reply.Ok? && reply.value != [] ==>
            |reply.value| == HDR_LEN
            && (w2.state == Authenticated <==> AuthAccepted(reply.value))
            && (!AuthAccepted(reply.value) ==> r == Ok(()) && !w2.open))
      && (reply.Err? ==> r == Err(reply.exc) && w2.state == Authenticating)
  {
  }

  /** The reply's message type plays no part in the decision. */
  lemma AuthIgnoresType(reply: Bytes, t: byte)
    requires |reply| == HDR_LEN
    ensures AuthAccepted(reply) == AuthAccepted([t] + reply[1..])
  {
  }

  /** After an accepted login the hardware-info frame is announced and the
      on-connect callback is called once; when the socket accepts and the cap
      allows, the wire gains exactly that frame, whose body splits back into
      h-beat 10 dev WiPy cpu CC3200. */
  lemma AuthenticatedAnnounces(w: World, respond: Responder, h: nat)
    requires WorldValid(w)
    requires w.out.txCount < MAX_MSG_PER_SEC && NextAttempt(w.out.script) == Accepted
    ensures var (w2, r) := AuthenticatedEffect(w, respond, Some(h));
      var f := Frame(MSG_HW_INFO, NextId(w.out.msgId), HW_INFO_ARGS);
      && w2.state == Authenticated
      && f.Some?
      && w2.out.wire == w.out.wire + [f.value]
      && Split(f.value[HDR_LEN..]) == HW_INFO_ARGS
      && w2.calls == w.calls + [ConnectCall(h)]
      && (r.Ok? <==> respond(ConnectCall(h), |w.calls|).Value?)
  {
    HwInfoArgsClean();
    EmitDelivers(w.out, MSG_HW_INFO, HW_INFO_ARGS, false);
    FrameRoundTrip(MSG_HW_INFO, NextId(w.out.msgId), HW_INFO_ARGS);
  }

  /** The login's own frame counts against the cap and nothing resets the
      counter while connecting, so when the counter has reached the cap the
      hardware-info frame is dropped: at most the login frame goes out. */
  lemma InfoFrameCapped(w: World, respond: Responder, token: Bytes, onConnect: Option<nat>)
    requires WorldValid(w)
    requires w.doConnect && NextConnect(w.connects)
    requires w.out.txCount >= MAX_MSG_PER_SEC && |token| < 0x1_0000
    ensures var (w2, r) := ConnectStep(w, respond, token, onConnect);
      var login := Pack(Header(MSG_LOGIN, NextId(w.out.msgId), |token|)).value + token;
      w2.out.wire == w.out.wire || w2.out.wire == w.out.wire + [login]
  {
    var w1 := Connected(w);
    NextIdRange(w.out.msgId);
    var id := NextId(w.out.msgId);
    var o1 := w1.out.(msgId := id);
    SendSpec(o1, Pack(Header(MSG_LOGIN, id, |token|)).value + token, true);
    var (w2, r2) := LoginEffect(w1, token);
    if r2.Ok? {
      var (inb, d) := RecvEffect(w2.inb, HDR_LEN);
      var w3 := w2.(inb := inb);
      if d.Ok? && d.value != [] && AuthAccepted(d.value) {
        EmitAtMostOne(w3.out, MSG_HW_INFO, HW_INFO_ARGS, false);
        var (o4, f) := FormatEffect(w3.out, MSG_HW_INFO, HW_INFO_ARGS);
        if f.Ok? {
          SendCapped(o4, f.value);
        }
      }
    }
  }

  /** The receive buffer is not cleared on reconnect: five bytes still buffered
      from the previous connection are handed out as the auth reply as soon as
      the socket delivers anything, so a stale success reply authenticates
      whatever the server answers. */
  lemma StaleReplyAuthenticates(w: World, respond: Responder, token: Bytes, onConnect: Option<nat>)
    requires w.doConnect && NextConnect(w.connects)
    requires LoginEffect(Connected(w), token).1.Ok?
    requires |w.inb.rx| >= HDR_LEN && AuthAccepted(w.inb.rx[..HDR_LEN])
    requires |w.inb.inbox| > 0 && w.inb.inbox[0].Chunk?
    ensures AuthReply(w, token) == Ok(w.inb.rx[..HDR_LEN])
    ensures ConnectStep(w, respond, token, onConnect).0.state == Authenticated
  {
    var w2 := LoginEffect(Connected(w), token).0;
    assert w2.inb == w.inb;
    var (ev, rest) := Deliver(w.inb.inbox, HDR_LEN);
    if ev.Chunk? {
      assert (w.inb.rx + ev.data)[..HDR_LEN] == w.inb.rx[..HDR_LEN];
    }
  }

  /** A pass settles: unless it raises, the session ends DISCONNECTED or
      AUTHENTICATED. The pins' configuration, the registries and the id
      counter carry over from the previous connection; the pass keeps the
      session invariant. */
  lemma {:induction false} ConnectStepSpec(w: World, respond: Responder, token: Bytes, onConnect: Option<nat>)
    requires SessionValid(w)
    ensures var (w2, r) := ConnectStep(w, respond, token, onConnect);
      && (r.Ok? && w.doConnect ==> w2.state == Disconnected || w2.state == Authenticated)
      && w2.pinsConfigured == w.pinsConfigured
      && w2.pins == w.pins
      && w.calls <= w2.calls
      && SessionValid(w2)
  {
    if w.doConnect && NextConnect(w.connects) {
      var w1 := Connected(w);
      NextIdRange(w.out.msgId);
      var id := NextId(w.out.msgId);
      var (w2, r2) := LoginEffect(w1, token);
      if Pack(Header(MSG_LOGIN, id, |token|)).Some? {
        SendSpec(w1.out.(msgId := id), Pack(Header(MSG_LOGIN, id, |token|)).value + token, true);
      }
      if r2.Ok? {
        var (inb, d) := RecvEffect(w2.inb, HDR_LEN);
        var w3 := w2.(inb := inb);
        if d.Ok? && d.value != [] && AuthAccepted(d.value) {
          AuthenticatedFrame(w3, respond, onConnect);
        }
      }
    }
  }

  lemma AuthenticatedFrame(w: World, respond: Responder, onConnect: Option<nat>)
    requires WorldValid(w) && w.open
    ensures var (w2, r) := AuthenticatedEffect(w, respond, onConnect);
      && w2 == w.(state := Authenticated, out := w2.out, calls := w2.calls)
      && w.calls <= w2.calls
      && SessionValid(w2)
  {
    EmitAtMostOne(w.out, MSG_HW_INFO, HW_INFO_ARGS, false);
  }

  // ---------------------------------------------------------------------------
  // Steady state (BlynkLib.py:572-592)

  /** One inbound frame: true means the steady loop goes on, false that the
      session was closed and the loop broken off. */
  function IncomingEffect(w: World, respond: Responder): (World, Outcome<bool>)
  {
    var (inb, d) := RecvEffect(w.inb, HDR_LEN);
    var w1 := w.(inb := inb);
    if d.Err? then (w1, Err(d.exc))
    else if d.value == [] then (w1, Ok(true))
    else
      var h := Unpack(d.value);
      if h.msgId == 0 then (Close(w1), Ok(false))
      else if h.msgType == MSG_RSP then
        (if h.msgId == w1.lastHbId then w1.(lastHbId := 0) else w1, Ok(true))
      else if h.msgType == MSG_PING then
        var (o, r) := SendEffect(w1.out, Pack(Header(MSG_RSP, h.msgId, STA_SUCCESS)).value, true);
        (w1.(out := o), if r.Err? then Err(r.exc) else Ok(true))
      else if h.msgType == MSG_HW || h.msgType == MSG_BRIDGE then
        var (inb2, body) := RecvEffect(w1.inb, h.length);
        var w2 := w1.(inb := inb2);
        if body.Err? then (w2, Err(body.exc))
        else if body.value == [] then (w2, Ok(true))
        else
          var (w3, r) := HwEffect(w2, respond, body.value);
          (w3, if r.Err? then Err(r.exc) else Ok(true))
      else (Close(w1), Ok(false))
  }

  /** The header _recv hands out, and the world just after reading it. */
  function HeaderRead(w: World): (Outcome<Bytes>, World)
  {
    var (inb, d) := RecvEffect(w.inb, HDR_LEN);
    (d, w.(inb := inb))
  }

  /** No complete header yet: only the receive side moves, and the loop goes on. */
  lemma IncomingIdle(w: World, respond: Responder)
    requires HeaderRead(w).0 == Ok([])
    ensures IncomingEffect(w, respond) == (HeaderRead(w).1, Ok(true))
  {
  }

  /** A header with id 0 closes the session. */
  lemma IncomingZeroIdCloses(w: World, respond: Responder)
    requires HeaderRead(w).0.Ok? && HeaderRead(w).0.value != []
    requires Unpack(HeaderRead(w).0.value).msgId == 0
    ensures var (w2, r) := IncomingEffect(w, respond);
      r == Ok(false) && w2.state == Disconnected && !w2.open
  {
  }

  /** A RSP settles the outstanding heartbeat exactly when its id is that
      heartbeat's id; nothing else changes. */
  lemma IncomingRsp(w: World, respond: Responder)
    requires HeaderRead(w).0.Ok? && HeaderRead(w).0.value != []
    requires Unpack(HeaderRead(w).0.value).msgId != 0 && Unpack(HeaderRead(w).0.value).msgType == MSG_RSP
    ensures var (w2, r) := IncomingEffect(w, respond);
      var id := Unpack(HeaderRead(w).0.value).msgId;
      && r == Ok(true)
      && w2 == HeaderRead(w).1.(lastHbId := w2.lastHbId)
      && (id == w.lastHbId ==> w2.lastHbId == 0)
      && (id != w.lastHbId ==> w2.lastHbId == w.lastHbId)
  {
  }

  /** A PING is answered with (RSP, the same id, 200), sent even past the rate
      cap; when the socket accepts, that header is the one new frame. */
  lemma IncomingPingAnswered(w: World, respond: Responder)
    requires HeaderRead(w).0.Ok? && HeaderRead(w).0.value != []
    requires Unpack(HeaderRead(w).0.value).msgId != 0 && Unpack(HeaderRead(w).0.value).msgType == MSG_PING
    requires NextAttempt(w.out.script) == Accepted
    ensures var (w2, r) := IncomingEffect(w, respond);
      var id := Unpack(HeaderRead(w).0.value).msgId;
      var rsp := Pack(Header(MSG_RSP, id, STA_SUCCESS));
      && rsp.Some?
      && r == Ok(true)
      && w2.out.wire == w.out.wire + [rsp.value]
      && Unpack(rsp.value) == Header(MSG_RSP, id, STA_SUCCESS)
      && w2.out.msgId == w.out.msgId
      && w2 == HeaderRead(w).1.(out := w2.out)
  {
    var id := Unpack(HeaderRead(w).0.value).msgId;
    UnpackPack(Header(MSG_RSP, id, STA_SUCCESS));
  }

  /** A HW or BRIDGE frame whose body has arrived is handed to the dispatcher;
      the dispatcher's exceptions leave the loop. */
  lemma IncomingHwDispatched(w: World, respond: Responder)
    requires HeaderRead(w).0.Ok? && HeaderRead(w).0.value != []
    requires var h := Unpack(HeaderRead(w).0.value);
      h.msgId != 0 && (h.msgType == MSG_HW || h.msgType == MSG_BRIDGE)
    ensures var w1 := HeaderRead(w).1;
      var len := Unpack(HeaderRead(w).0.value).length;
      var (inb2, body) := RecvEffect(w1.inb, len);
      body.Ok? && body.value != [] ==>
        |body.value| == len &&
        var (w3, r) := HwEffect(w1.(inb := inb2), respond, body.value);
        IncomingEffect(w, respond) == (w3, if r.Err? then Err(r.exc) else Ok(true))
  {
  }

  /** A HW frame whose body has not fully arrived is dropped: its header is
      consumed, nothing is dispatched, and the partial body stays buffered,
      where the next read takes it for a header. */
  lemma IncomingBodyLate(w: World, respond: Responder)
    requires HeaderRead(w).0.Ok? && HeaderRead(w).0.value != []
    requires var h := Unpack(HeaderRead(w).0.value);
      h.msgId != 0 && (h.msgType == MSG_HW || h.msgType == MSG_BRIDGE)
    requires var w1 := HeaderRead(w).1;
      RecvEffect(w1.inb, Unpack(HeaderRead(w).0.value).length).1 == Ok([])
    ensures var (w2, r) := IncomingEffect(w, respond);
      var w1 := HeaderRead(w).1;
      && r == Ok(true)
      && w2 == w1.(inb := w2.inb)
      && w2.inb.rx == w1.inb.rx + Received(w1.inb.inbox, Unpack(HeaderRead(w).0.value).length)
  {
    var w1 := HeaderRead(w).1;
    RecvSpec(w1.inb, Unpack(HeaderRead(w).0.value).length);
  }

  /** Any other message type closes the session. */
  lemma IncomingUnknownCloses(w: World, respond: Responder)
    requires HeaderRead(w).0.Ok? && HeaderRead(w).0.value != []
    requires var h := Unpack(HeaderRead(w).0.value);
      h.msgId != 0 && h.msgType !in {MSG_RSP, MSG_PING, MSG_HW, MSG_BRIDGE}
    ensures IncomingEffect(w, respond) == (Close(HeaderRead(w).1), Ok(false))
  {
  }

  /** One pass of `while self._do_connect`: an inbound frame, then the
      liveness step with the clock reading `cTime`; a dead server closes the
      session. The result says whether the loop goes on. */
  function SteadyStep(w: World, respond: Responder, cTime: int): (World, Outcome<bool>)
  {
    var (w1, r1) := IncomingEffect(w, respond);
    if r1.Err? then (w1, r1)
    else if !r1.value then (w1, Ok(false))
    else
      var (w2, r2) := AliveEffect(w1, cTime);
      if r2.Err? then (w2, r2)
      else if !r2.value then (Close(w2), Ok(false))
      else (w2, Ok(true))
  }

  /** A steady pass keeps the session invariant; when it breaks off the loop
      the session is DISCONNECTED with the transport closed, and when it goes
      on the state is unchanged. */
  lemma SteadyStepSpec(w: World, respond: Responder, cTime: int)
    requires SessionValid(w)
    ensures var (w2, r) := SteadyStep(w, respond, cTime);
      && SessionValid(w2)
      && (r == Ok(false) ==> w2.state == Disconnected && !w2.open)
      && (r == Ok(true) ==> w2.state == w.state && w2.open == w.open)
      && w2.pins == w.pins
      && w.calls <= w2.calls
  {
    IncomingSpec(w, respond);
    var (w1, r1) := IncomingEffect(w, respond);
    AlivePreservesValid(w1, cTime);
    if w1.mTime != cTime && PingDue(w1, cTime) {
      AlivePings(w1, cTime);
    }
  }

  /** An inbound frame keeps the session invariant, the registries and the
      connection state unless it closes the session. */
  lemma IncomingSpec(w: World, respond: Responder)
    requires SessionValid(w)
    ensures var (w2, r) := IncomingEffect(w, respond);
      && SessionValid(w2)
      && (r == Ok(false) ==> w2.state == Disconnected && !w2.open)
      && (r.Ok? && r.value ==> w2.state == w.state && w2.open == w.open)
      && w2.pins == w.pins
      && w.calls <= w2.calls
  {
    var (inb, d) := RecvEffect(w.inb, HDR_LEN);
    var w1 := w.(inb := inb);
    if d.Ok? && d.value != [] {
      var h := Unpack(d.value);
      if h.msgId != 0 {
        if h.msgType == MSG_PING {
          SendSpec(w1.out, Pack(Header(MSG_RSP, h.msgId, STA_SUCCESS)).value, true);
        } else if h.msgType != MSG_RSP && (h.msgType == MSG_HW || h.msgType == MSG_BRIDGE) {
          var (inb2, body) := RecvEffect(w1.inb, h.length);
          if body.Ok? && body.value != [] {
            HwFrame(w1.(inb := inb2), respond, body.value);
          }
        }
      }
    }
  }

  /** A quiet pass -- nothing received, same second -- changes only the
      receive side. */
  lemma SteadyQuiet(w: World, respond: Responder, cTime: int)
    requires HeaderRead(w).0 == Ok([]) && w.mTime == cTime
    ensures SteadyStep(w, respond, cTime) == (HeaderRead(w).1, Ok(true))
  {
  }

  /** A pass whose liveness step finds the heartbeat overdue closes the session. */
  lemma SteadyDeadCloses(w: World, respond: Responder, cTime: int)
    requires HeaderRead(w).0 == Ok([])
    requires w.mTime != cTime && w.lastHbId != 0 && cTime - w.hbTime >= MAX_SOCK_TO
    ensures var (w2, r) := SteadyStep(w, respond, cTime);
      r == Ok(false) && w2.state == Disconnected && !w2.open
  {
    AliveDeadIff(HeaderRead(w).1, cTime);
  }

  // ---------------------------------------------------------------------------
  // The loops of _run, pass by pass

  /** Which loop of _run a pass is in: `while self.state != AUTHENTICATED`, or
      the steady `while self._do_connect`. */
  datatype Loop = ConnectLoop | SteadyLoop

  /** One pass of _run's loops, with the clock reading `cTime`. Leaving the
      connect loop (AUTHENTICATED) enters the steady loop after its reset; the
      steady loop ends when no connection is wanted (closing the transport) or
      when a pass closes the session, and the outer loop goes back to
      connecting. */
  function RunPass(w: World, respond: Responder, token: Bytes, onConnect: Option<nat>, loop: Loop, cTime: int): (World, Loop, Outcome<()>)
  {
    match loop
    case ConnectLoop =>
      if w.state == Authenticated then (SteadyReset(w), SteadyLoop, Ok(()))
      else
        var (w2, r) := ConnectStep(w, respond, token, onConnect);
        (w2, ConnectLoop, r)
    case SteadyLoop =>
      if !w.doConnect then (Close(w), ConnectLoop, Ok(()))
      else
        var (w2, r) := SteadyStep(w, respond, cTime);
        if r.Err? then (w2, SteadyLoop, Err(r.exc))
        else if r.value then (w2, SteadyLoop, Ok(()))
        else (w2, ConnectLoop, Ok(()))
  }

  /** _run for as many passes as there are clock readings; an exception ends
      it, as it ends _run. */
  function RunPasses(w: World, respond: Responder, token: Bytes, onConnect: Option<nat>, loop: Loop, clock: seq<int>): (World, Loop, Outcome<()>)
    decreases |clock|
  {
    if clock == [] then (w, loop, Ok(()))
    else
      var (w2, l2, r) := RunPass(w, respond, token, onConnect, loop, clock[0]);
      if r.Err? then (w2, l2, r) else RunPasses(w2, respond, token, onConnect, l2, clock[1..])
  }

  /** The loop invariant of _run: the session invariant, and the steady loop
      is only ever entered authenticated. */
  predicate RunValid(w: World, loop: Loop) {
    SessionValid(w) && (loop == SteadyLoop && w.doConnect ==> w.state == Authenticated)
  }

  /** A pass keeps the run invariant, keeps the registries, and only appends
      to the call log. */
  lemma RunPassSpec(w: World, respond: Responder, token: Bytes, onConnect: Option<nat>, loop: Loop, cTime: int)
    requires RunValid(w, loop)
    ensures var (w2, l2, r) := RunPass(w, respond, token, onConnect, loop, cTime);
      && (r.Ok? ==> RunValid(w2, l2))
      && SessionValid(w2)
      && w2.pins == w.pins
      && w.calls <= w2.calls
  {
    match loop
    case ConnectLoop =>
      if w.state != Authenticated {
        ConnectStepSpec(w, respond, token, onConnect);
      }
    case SteadyLoop =>
      if w.doConnect {
        SteadyStepSpec(w, respond, cTime);
      }
  }

  /** Over any number of passes _run keeps the session invariant -- ids in
      range, virtual pins within 0..127, an authenticated session always has
      its transport open -- never changes the registries, and only appends to
      the call log. */
  lemma {:induction false} RunPassesSpec(w: World, respond: Responder, token: Bytes, onConnect: Option<nat>, loop: Loop, clock: seq<int>)
    requires RunValid(w, loop)
    ensures var (w2, l2, r) := RunPasses(w, respond, token, onConnect, loop, clock);
      && SessionValid(w2)
      && (r.Ok? ==> RunValid(w2, l2))
      && w2.pins == w.pins
      && w.calls <= w2.calls
    decreases |clock|
  {
    if clock != [] {
      RunPassSpec(w, respond, token, onConnect, loop, clock[0]);
      var (w2, l2, r) := RunPass(w, respond, token, onConnect, loop, clock[0]);
      if r.Ok? {
        RunPassesSpec(w2, respond, token, onConnect, l2, clock[1..]);
      }
    }
  }
}
