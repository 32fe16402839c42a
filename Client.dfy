/** The `Blynk` class (BlynkLib.py:217-599) as a Dafny class with the same
    fields, updated in place by its methods. Each method is proved to change
    the object, its transport and its user code exactly as the corresponding
    specification function of the other modules says; the properties of those
    functions are proved there. */
module Client {
  import opened Wire
  import opened Types
  import opened MsgIds
  import opened Transmit
  import opened Reassembly
  import opened Liveness
  import opened Facade
  import opened Dispatch
  import opened Registry
  import opened Session
  import opened Environment

  /** What a Blynk object keeps besides the session state: the auth token, the
      server address, the transport options, the on-connect callback and the
      user tasks. */
  datatype Settings = Settings(token: Bytes, server: string, port: int, ssl: bool, onConnect: Option<nat>, userTasks: seq<UserTask>)

  class Blynk {
    var state: ConnState
    var doConnect: bool
    var token: Bytes
    var server: string
    var port: int
    var ssl: bool
    var onConnect: Option<nat>
    var userTasks: seq<UserTask>
    var vrPins: map<int, PinEntry>
    var digitalHwPins: map<int, PinEntry>
    var analogHwPins: map<int, PinEntry>
    var rxData: Bytes
    var msgId: int
    var pinsConfigured: bool
    var txCount: int
    var mTime: int
    var hbTime: int
    var lastHbId: int
    const conn: Transport
    const user: UserCode

    /** The session state of this object, its transport and its user code. */
    ghost function W(): World
      reads this, conn, user
    {
      World(state, doConnect, conn.connects, conn.open, Inbound(rxData, conn.inbox),
            Outbox(msgId, txCount, conn.script, conn.wire), pinsConfigured,
            Pins(vrPins, digitalHwPins, analogHwPins), user.calls, mTime, hbTime, lastHbId)
    }

    ghost function Config(): Settings
      reads this
    {
      Settings(token, server, port, ssl, onConnect, userTasks)
    }

    ghost predicate Valid()
      reads this, conn, user
    {
      SessionValid(W())
    }

    /** Blynk(token, server, port, connect, ssl): port 8441 with SSL and 8442
        without when none is given. The fields that the library first sets in
        _run start with the values _run gives them. */
    constructor (token: Bytes, server: string, port: Option<int>, connect: bool, ssl: bool, conn: Transport, user: UserCode)
      ensures this.conn == conn && this.user == user
      ensures Config() == Settings(token, server, if port.Some? then port.value else if ssl then 8441 else 8442, ssl, None, [])
      ensures state == Disconnected && doConnect == connect
      ensures vrPins == map[] && digitalHwPins == map[] && analogHwPins == map[]
      ensures rxData == [] && msgId == 1 && !pinsConfigured
      ensures txCount == 0 && mTime == 0 && hbTime == 0 && lastHbId == 0
      ensures WorldValid(W())
    {
      this.token := token;
      this.server := server;
      this.port := if port.Some? then port.value else if ssl then 8441 else 8442;
      this.ssl := ssl;
      this.doConnect := connect;
      this.conn := conn;
      this.user := user;
      state := Disconnected;
      onConnect := None;
      userTasks := [];
      vrPins := map[];
      digitalHwPins := map[];
      analogHwPins := map[];
      rxData := [];
      msgId := 1;
      pinsConfigured := false;
      txCount := 0;
      mTime := 0;
      hbTime := 0;
      lastHbId := 0;
    }

    // -------------------------------------------------------------------------
    // Framing, ids, receive and send

    /** _new_msg_id. */
    method NewMsgId() returns (id: int)
      modifies this
      ensures id == NextId(old(msgId))
      ensures W() == old(W()).(out := old(W()).out.(msgId := id))
      ensures Config() == old(Config())
    {
      msgId := msgId + 1;
      if msgId > MAX_ID {
        msgId := 1;
      }
      id := msgId;
    }

    /** _format_msg. */
    method FormatMsg(msgType: int, args: seq<Bytes>) returns (r: Outcome<Bytes>)
      modifies this
      ensures (W().out, r) == FormatEffect(old(W()).out, msgType, args)
      ensures W() == old(W()).(out := W().out)
      ensures Config() == old(Config())
    {
      var id := NewMsgId();
      var f := Frame(msgType, id, args);
      r := if f.Some? then Ok(f.value) else Err(StructError);
    }

    /** _recv(length). */
    method Recv(length: nat) returns (r: Outcome<Bytes>)
      modifies this, conn
      ensures (W().inb, r) == RecvEffect(old(W()).inb, length)
      ensures W() == old(W()).(inb := W().inb)
      ensures Config() == old(Config())
    {
      var ev := conn.Recv(length);
      match ev
      case TimedOut =>
        r := Ok([]);
      case RecvFailed(e) =>
        r := if e == EAGAIN then Ok([]) else Err(SocketError(e));
      case Chunk(c) =>
        rxData := rxData + c;
        if |rxData| >= length {
          r := Ok(rxData[..length]);
          rxData := rxData[length..];
        } else {
          r := Ok([]);
        }
    }

    /** _send(data, send_anyway): the retry loop. */
    method Send(data: Bytes, sendAnyway: bool) returns (r: Outcome<()>)
      modifies this, conn
      ensures (W().out, r) == SendEffect(old(W()).out, data, sendAnyway)
      ensures W() == old(W()).(out := W().out)
      ensures Config() == old(Config())
    {
      r := Ok(());
      if txCount < MAX_MSG_PER_SEC || sendAnyway {
        r := RetrySend(data);
      }
    }

    /** The retry loop of _send: up to MAX_TX_RETRIES + 1 attempts, repeated
        only on EAGAIN. */
    method RetrySend(data: Bytes) returns (r: Outcome<()>)
      modifies this`txCount, conn
      ensures (W().out, r) == RetryLoop(old(W()).out, data, 0)
      ensures conn.connects == old(conn.connects) && conn.open == old(conn.open) && conn.inbox == old(conn.inbox)
    {
      r := Ok(());
      var retries: nat := 0;
      while retries <= MAX_TX_RETRIES
        invariant retries <= MAX_TX_RETRIES + 1
        invariant RetryLoop(W().out, data, retries) == RetryLoop(old(W()).out, data, 0)
        invariant txCount == old(txCount)
        invariant conn.connects == old(conn.connects) && conn.open == old(conn.open) && conn.inbox == old(conn.inbox)
        decreases MAX_TX_RETRIES + 1 - retries
      {
        ghost var o := W().out;
        var ev := conn.SendAttempt(data);
        if ev == Accepted {
          assert RetryLoop(o, data, retries) == (W().out.(txCount := txCount + 1), Ok(()));
          txCount := txCount + 1;
          return;
        }
        if ev.errno != EAGAIN {
          r := Err(SocketError(ev.errno));
          return;
        }
        retries := retries + 1;
      }
    }

    /** self._send(self._format_msg(msg_type, *args), send_anyway). */
    method Emit(msgType: int, args: seq<Bytes>, sendAnyway: bool) returns (r: Outcome<()>)
      modifies this, conn
      ensures (W().out, r) == EmitEffect(old(W()).out, msgType, args, sendAnyway)
      ensures W() == old(W()).(out := W().out)
      ensures Config() == old(Config())
    {
      var f := FormatMsg(msgType, args);
      if f.Err? {
        r := Err(f.exc);
      } else {
        r := Send(f.value, sendAnyway);
      }
    }

    /** _close. */
    method CloseConn()
      modifies this, conn
      ensures W() == Close(old(W()))
      ensures Config() == old(Config())
    {
      conn.Close();
      state := Disconnected;
    }

    /** _server_alive, with the clock reading `cTime`. */
    method ServerAlive(cTime: int) returns (r: Outcome<bool>)
      modifies this, conn
      ensures (W(), r) == AliveEffect(old(W()), cTime)
      ensures Config() == old(Config())
    {
      if mTime == cTime {
        return Ok(true);
      }
      mTime := cTime;
      txCount := 0;
      if lastHbId != 0 && cTime - hbTime >= MAX_SOCK_TO {
        return Ok(false);
      }
      r := Ok(true);
      if cTime - hbTime >= HB_PERIOD && state == Authenticated {
        r := SendHeartbeat(cTime);
      }
    }

    /** The PING branch of _server_alive. */
    method SendHeartbeat(cTime: int) returns (r: Outcome<bool>)
      modifies this, conn
      ensures (W(), r) == Heartbeat(old(W()), cTime)
      ensures Config() == old(Config())
    {
      hbTime := cTime;
      var id := NewMsgId();
      lastHbId := id;
      var ping := Pack(Header(MSG_PING, id, 0));
      if ping.None? {
        return Err(StructError);
      }
      var s := Send(ping.value, true);
      r := if s.Err? then Err(s.exc) else Ok(true);
    }

    // -------------------------------------------------------------------------
    // The outbound facade

    /** The shared body of the facade senders. */
    method Post(q: Request) returns (r: Outcome<()>)
      modifies this, conn
      ensures (W(), r) == FacadeEffect(old(W()), q)
      ensures Config() == old(Config())
    {
      r := Ok(());
      if state == Authenticated {
        r := Emit(RequestType(q), RequestArgs(q), false);
      }
    }

    /** notify(msg). */
    method Notify(msg: Bytes) returns (r: Outcome<()>)
      modifies this, conn
      ensures (W(), r) == FacadeEffect(old(W()), Request.Notify(msg))
      ensures Config() == old(Config())
    {
      r := Post(Request.Notify(msg));
    }

    /** tweet(msg). */
    method Tweet(msg: Bytes) returns (r: Outcome<()>)
      modifies this, conn
      ensures (W(), r) == FacadeEffect(old(W()), Request.Tweet(msg))
      ensures Config() == old(Config())
    {
      r := Post(Request.Tweet(msg));
    }

    /** email(to, subject, body). */
    method Email(to: Bytes, subject: Bytes, body: Bytes) returns (r: Outcome<()>)
      modifies this, conn
      ensures (W(), r) == FacadeEffect(old(W()), Request.Email(to, subject, body))
      ensures Config() == old(Config())
    {
      r := Post(Request.Email(to, subject, body));
    }

    /** virtual_write(pin, val). */
    method VirtualWrite(pin: int, val: Bytes) returns (r: Outcome<()>)
      modifies this, conn
      ensures (W(), r) == FacadeEffect(old(W()), Request.VirtualWrite(pin, val))
      ensures Config() == old(Config())
    {
      r := Post(Request.VirtualWrite(pin, val));
    }

    /** sync_all(). */
    method SyncAll() returns (r: Outcome<()>)
      modifies this, conn
      ensures (W(), r) == FacadeEffect(old(W()), Request.SyncAll)
      ensures Config() == old(Config())
    {
      r := Post(Request.SyncAll);
    }

    /** sync_virtual(pin). */
    method SyncVirtual(pin: int) returns (r: Outcome<()>)
      modifies this, conn
      ensures (W(), r) == FacadeEffect(old(W()), Request.SyncVirtual(pin))
      ensures Config() == old(Config())
    {
      r := Post(Request.SyncVirtual(pin));
    }

    // -------------------------------------------------------------------------
    // Registration and configuration

    /** add_virtual_pin(pin, read, write). */
    method AddVirtualPin(pin: int, read: Option<nat>, write: Option<nat>) returns (r: Outcome<()>)
      modifies this
      ensures (W().pins, r) == Register(old(W()).pins, Virtual, pin, PinEntry(read, write))
      ensures W() == old(W()).(pins := W().pins)
      ensures Config() == old(Config())
    {
      if 0 <= pin < MAX_VIRTUAL_PINS {
        vrPins := vrPins[pin := PinEntry(read, write)];
        r := Ok(());
      } else {
        r := Err(ValueError);
      }
    }

    /** add_digital_hw_pin(pin, read, write). */
    method AddDigitalHwPin(pin: int, read: Option<nat>, write: Option<nat>) returns (r: Outcome<()>)
      modifies this
      ensures (W().pins, r) == Register(old(W()).pins, Digital, pin, PinEntry(read, write))
      ensures W() == old(W()).(pins := W().pins)
      ensures Config() == old(Config())
    {
      digitalHwPins := digitalHwPins[pin := PinEntry(read, write)];
      r := Ok(());
    }

    /** add_analog_hw_pin(pin, read, write). */
    method AddAnalogHwPin(pin: int, read: Option<nat>, write: Option<nat>) returns (r: Outcome<()>)
      modifies this
      ensures (W().pins, r) == Register(old(W()).pins, Analog, pin, PinEntry(read, write))
      ensures W() == old(W()).(pins := W().pins)
      ensures Config() == old(Config())
    {
      analogHwPins := analogHwPins[pin := PinEntry(read, write)];
      r := Ok(());
    }

    /** on_connect(func). */
    method OnConnect(h: nat)
      modifies this
      ensures Config() == old(Config()).(onConnect := Some(h))
      ensures W() == old(W())
    {
      onConnect := Some(h);
    }

    /** add_user_task(task, second_period, authenticated). */
    method AddUserTask(handler: Option<nat>, secondPeriod: int, authenticated: bool)
      modifies this
      ensures Config() == old(Config()).(userTasks := old(userTasks) + [NewTask(handler, secondPeriod, authenticated)])
      ensures W() == old(W())
    {
      userTasks := userTasks + [NewTask(handler, secondPeriod, authenticated)];
    }

    /** connect(). */
    method Connect()
      modifies this
      ensures W() == old(W()).(doConnect := true)
      ensures Config() == old(Config())
    {
      doConnect := true;
    }

    /** disconnect(). */
    method Disconnect()
      modifies this
      ensures W() == old(W()).(doConnect := false)
      ensures Config() == old(Config())
    {
      doConnect := false;
    }

    /** UserTask.run_task for a task of this object. */
    method RunTask(t: UserTask) returns (r: Outcome<()>)
      modifies user
      ensures (W(), r) == TaskEffect(old(W()), user.respond, t)
      ensures Config() == old(Config())
    {
      r := Ok(());
      if t.handler.Some? && (!t.authenticatedOnly || state == Authenticated) {
        var re := user.Call(TaskCall(t.handler.value));
        if !re.Value? {
          r := Err(CallbackRaised);
        }
      }
    }

    // -------------------------------------------------------------------------
    // _handle_hw

    /** _handle_hw(data). */
    method HandleHw(data: Bytes) returns (r: Outcome<()>)
      modifies this, conn, user
      ensures (W(), r) == HwEffect(old(W()), user.respond, data)
      ensures Config() == old(Config())
    {
      var params := Split(data);
      if !AllAscii(params) {
        return Err(UnicodeError);
      }
      var cmd := params[0];
      params := params[1..];
      if cmd == CMD_INFO {
        r := Ok(());
      } else if cmd == CMD_PM {
        r := HandlePinMode(params);
      } else if cmd == CMD_VW {
        r := HandleVirtualWrite(params);
      } else if cmd == CMD_VR {
        r := HandleRead(Virtual, params);
      } else if !pinsConfigured {
        r := Ok(());
      } else if cmd == CMD_DW {
        r := HandleHwWrite(Digital, params);
      } else if cmd == CMD_AW {
        r := HandleHwWrite(Analog, params);
      } else if cmd == CMD_DR {
        r := HandleRead(Digital, params);
      } else if cmd == CMD_AR {
        r := HandleRead(Analog, params);
      } else {
        r := Err(ValueError);
      }
    }

    /** The pm branch: check the (pin, mode) pairs in order. */
    method HandlePinMode(rest: seq<Bytes>) returns (r: Outcome<()>)
      modifies this
      ensures (W(), r) == PinModeEffect(old(W()), rest)
      ensures Config() == old(Config())
    {
      var k := 0;
      while k < |rest| / 2
        invariant 0 <= k <= |rest| / 2
        invariant forall j :: 0 <= j < k ==> PairAccepted(rest, j)
      {
        var pin := ParseInt(rest[2 * k]);
        if pin.None? || !IsPinMode(rest[2 * k + 1]) {
          assert !PairAccepted(rest, k);
          return Err(ValueError);
        }
        k := k + 1;
      }
      pinsConfigured := true;
      r := Ok(());
    }

    /** The vw branch: every remaining field goes to the write callback. */
    method HandleVirtualWrite(rest: seq<Bytes>) returns (r: Outcome<()>)
      modifies user
      ensures (W(), r) == VirtualWriteCmd(old(W()), user.respond, rest)
      ensures Config() == old(Config())
    {
      if |rest| == 0 {
        return Err(IndexError);
      }
      var pin := ParseInt(rest[0]);
      if pin.None? {
        return Err(ValueError);
      }
      var h := WriteHandler(Pins(vrPins, digitalHwPins, analogHwPins), Virtual, pin.value);
      if h.None? {
        return Ok(());
      }
      var vals := rest[1..];
      var i := 0;
      while i < |vals|
        invariant 0 <= i <= |vals|
        invariant WriteEach(W(), user.respond, pin.value, h.value, vals[i..]) == WriteEach(old(W()), user.respond, pin.value, h.value, vals)
      {
        var re := user.Call(WriteCall(Virtual, pin.value, h.value, TextArg(vals[i])));
        assert vals[i..][1..] == vals[i + 1..];
        if !re.Value? {
          return Err(CallbackRaised);
        }
        i := i + 1;
      }
      r := Ok(());
    }

    /** The dw and aw branches. */
    method HandleHwWrite(ns: Namespace, rest: seq<Bytes>) returns (r: Outcome<()>)
      modifies user
      ensures (W(), r) == HwWriteCmd(old(W()), user.respond, ns, rest)
      ensures Config() == old(Config())
    {
      if |rest| == 0 {
        return Err(IndexError);
      }
      var pin := ParseInt(rest[0]);
      if pin.None? {
        return Err(ValueError);
      }
      if |rest| == 1 {
        return Err(IndexError);
      }
      var val := ParseInt(rest[1]);
      if val.None? {
        return Err(ValueError);
      }
      var h := WriteHandler(Pins(vrPins, digitalHwPins, analogHwPins), ns, pin.value);
      r := Ok(());
      if h.Some? {
        var re := user.Call(WriteCall(ns, pin.value, h.value, IntArg(val.value)));
        if !re.Value? {
          r := Err(CallbackRaised);
        }
      }
    }

    /** The vr, dr and ar branches: errors while replying are swallowed. */
    method HandleRead(ns: Namespace, rest: seq<Bytes>) returns (r: Outcome<()>)
      modifies this, conn, user
      ensures (W(), r) == ReadCmd(old(W()), user.respond, ns, rest)
      ensures Config() == old(Config())
    {
      if |rest| == 0 {
        return Err(IndexError);
      }
      var pin := ParseInt(rest[0]);
      if pin.None? {
        return Err(ValueError);
      }
      var h := ReadHandler(Pins(vrPins, digitalHwPins, analogHwPins), ns, pin.value);
      r := Ok(());
      if h.Some? {
        var re := user.Call(ReadCall(ns, pin.value, h.value));
        if re.Value? {
          var swallowed;
          if ns == Virtual {
            swallowed := VirtualWrite(pin.value, re.text);
          } else {
            swallowed := Emit(MSG_HW, [ReplyTag(ns), IntText(pin.value), re.text], false);
          }
        }
      }
    }

    // -------------------------------------------------------------------------
    // _run

    /** The prologue of _run: reset, then start every user task once. */
    method RunPrologue() returns (r: Outcome<()>)
      modifies this, user
      ensures (W(), r) == RunPrologueEffect(old(W()), user.respond, userTasks)
      ensures Config() == old(Config())
    {
      ResetRun();
      r := StartUserTasks();
    }

    /** The resets at the start of _run. */
    method ResetRun()
      modifies this`rxData, this`msgId, this`pinsConfigured, this`txCount, this`mTime
      ensures W() == RunReset(old(W()))
    {
      rxData := [];
      msgId := 1;
      pinsConfigured := false;
      txCount := 0;
      mTime := 0;
    }

    /** `for task in self.user_tasks: task.run_task()`. */
    method StartUserTasks() returns (r: Outcome<()>)
      modifies user
      ensures (W(), r) == StartTasks(old(W()), user.respond, userTasks)
      ensures Config() == old(Config())
    {
      var i := 0;
      while i < |userTasks|
        invariant 0 <= i <= |userTasks|
        invariant StartTasks(W(), user.respond, userTasks[i..]) == StartTasks(old(W()), user.respond, userTasks)
      {
        var t := RunTask(userTasks[i]);
        assert userTasks[i..][1..] == userTasks[i + 1..];
        if t.Err? {
          return t;
        }
        i := i + 1;
      }
      r := Ok(());
    }

    /** One pass of `while self.state != AUTHENTICATED`. */
    method ConnectPass() returns (r: Outcome<()>)
      modifies this, conn, user
      ensures (W(), r) == ConnectStep(old(W()), user.respond, token, onConnect)
      ensures Config() == old(Config())
    {
      if !doConnect {
        return Ok(());
      }
      state := Connecting;
      var ok := conn.Connect();
      if !ok {
        CloseConn();
        return Ok(());
      }
      r := Login();
      if r.Err? {
        return;
      }
      var data := Recv(HDR_LEN);
      if data.Err? {
        return Err(data.exc);
      }
      if data.value == [] || !AuthAccepted(data.value) {
        CloseConn();
        return Ok(());
      }
      r := Announce();
    }

    /** The login: AUTHENTICATING, then the token behind a LOGIN header. */
    method Login() returns (r: Outcome<()>)
      modifies this, conn
      ensures (W(), r) == LoginEffect(old(W()), token)
      ensures Config() == old(Config())
    {
      state := Authenticating;
      var id := NewMsgId();
      var hdr := Pack(Header(MSG_LOGIN, id, |token|));
      if hdr.None? {
        return Err(StructError);
      }
      r := Send(hdr.value + token, true);
    }

    /** The accepted login: AUTHENTICATED, the HW_INFO frame, then on_connect. */
    method Announce() returns (r: Outcome<()>)
      modifies this, conn, user
      ensures (W(), r) == AuthenticatedEffect(old(W()), user.respond, onConnect)
      ensures Config() == old(Config())
    {
      state := Authenticated;
      r := Emit(MSG_HW_INFO, HW_INFO_ARGS, false);
      if r.Err? {
        return;
      }
      if onConnect.Some? {
        var re := user.Call(ConnectCall(onConnect.value));
        if !re.Value? {
          return Err(CallbackRaised);
        }
      }
      r := Ok(());
    }

    /** The reset on entering the steady loop. */
    method EnterSteady()
      modifies this
      ensures W() == SteadyReset(old(W()))
      ensures Config() == old(Config())
    {
      ghost var w0 := W();
      hbTime := 0;
      lastHbId := 0;
      txCount := 0;
      assert W() == w0.(hbTime := 0, lastHbId := 0, out := w0.out.(txCount := 0));
    }

    /** One inbound frame of the steady loop. */
    method Incoming() returns (r: Outcome<bool>)
      modifies this, conn, user
      ensures (W(), r) == IncomingEffect(old(W()), user.respond)
      ensures Config() == old(Config())
    {
      var data := Recv(HDR_LEN);
      if data.Err? {
        return Err(data.exc);
      }
      if data.value == [] {
        return Ok(true);
      }
      var h := Unpack(data.value);
      if h.msgId == 0 {
        CloseConn();
        return Ok(false);
      }
      if h.msgType == MSG_RSP {
        if h.msgId == lastHbId {
          lastHbId := 0;
        }
        return Ok(true);
      }
      if h.msgType == MSG_PING {
        var s := Send(Pack(Header(MSG_RSP, h.msgId, STA_SUCCESS)).value, true);
        return if s.Err? then Err(s.exc) else Ok(true);
      }
      if h.msgType == MSG_HW || h.msgType == MSG_BRIDGE {
        var body := Recv(h.length);
        if body.Err? {
          return Err(body.exc);
        }
        if body.value != [] {
          var d := HandleHw(body.value);
          if d.Err? {
            return Err(d.exc);
          }
        }
        return Ok(true);
      }
      CloseConn();
      r := Ok(false);
    }

    /** One pass of `while self._do_connect`. */
    method SteadyPass(cTime: int) returns (r: Outcome<bool>)
      modifies this, conn, user
      ensures (W(), r) == SteadyStep(old(W()), user.respond, cTime)
      ensures Config() == old(Config())
    {
      r := Incoming();
      if r.Err? || !r.value {
        return;
      }
      var alive := ServerAlive(cTime);
      if alive.Err? {
        return alive;
      }
      if !alive.value {
        CloseConn();
        return Ok(false);
      }
      r := Ok(true);
    }

    /** One pass of _run's loops with the clock reading `cTime`. */
    method Pass(current: Loop, cTime: int) returns (loop: Loop, r: Outcome<()>)
      modifies this, conn, user
      ensures (W(), loop, r) == RunPass(old(W()), user.respond, token, onConnect, current, cTime)
      ensures Config() == old(Config())
    {
      loop := current;
      r := Ok(());
      match current {
        case ConnectLoop =>
          if state == Authenticated {
            EnterSteady();
            loop := SteadyLoop;
          } else {
            r := ConnectPass();
          }
        case SteadyLoop =>
          if !doConnect {
            CloseConn();
            loop := ConnectLoop;
          } else {
            var s := SteadyPass(cTime);
            if s.Err? {
              r := Err(s.exc);
            } else if !s.value {
              loop := ConnectLoop;
            }
          }
      }
    }

    /** _run, for one pass of its loops per clock reading; an exception ends
        it. The session invariant holds throughout. */
    method Run(clock: seq<int>) returns (loop: Loop, r: Outcome<()>)
      requires Valid()
      modifies this, conn, user
      ensures Config() == old(Config())
      ensures var (w1, r1) := RunPrologueEffect(old(W()), user.respond, userTasks);
        r1.Err? ==> (W(), loop, r) == (w1, ConnectLoop, r1)
      ensures var (w1, r1) := RunPrologueEffect(old(W()), user.respond, userTasks);
        r1.Ok? ==> (W(), loop, r) == RunPasses(w1, user.respond, token, onConnect, ConnectLoop, clock)
      ensures Valid()
    {
      RunPrologueSpec(W(), user.respond, userTasks);
      loop := ConnectLoop;
      r := RunPrologue();
      if r.Err? {
        return;
      }
      r := Ok(());
      ghost var w1 := W();
      ghost var respond := user.respond;
      ghost var tk := token;
      ghost var oc := onConnect;
      ghost var target := RunPasses(w1, respond, tk, oc, ConnectLoop, clock);
      RunPassesSpec(w1, respond, tk, oc, ConnectLoop, clock);
      var i := 0;
      while i < |clock|
        invariant 0 <= i <= |clock|
        invariant r == Ok(())
        invariant RunPasses(W(), respond, tk, oc, loop, clock[i..]) == target
        invariant Config() == old(Config())
        decreases |clock| - i
      {
        assert clock[i..][1..] == clock[i + 1..];
        loop, r := Pass(loop, clock[i]);
        if r.Err? {
          return;
        }
        r := Ok(());
        i := i + 1;
      }
      assert clock[i..] == [];
    }
  }
}
