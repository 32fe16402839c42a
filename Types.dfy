/** The values the session engine works on: connection states, the exceptions
    the library raises, the scripted environment (socket and user callbacks)
    and a snapshot of everything one `Blynk` object and its transport hold. */
module Types {
  import opened Wire

  // Tuning constants (BlynkLib.py:116-128)
  const HB_PERIOD: int := 10
  const MAX_SOCK_TO: int := 5
  const MAX_TX_RETRIES: nat := 3
  const MAX_VIRTUAL_PINS: int := 128
  /** errno of a non-blocking operation that would block (BlynkLib.py:135). */
  const EAGAIN: int := 11

  /** Connection states (BlynkLib.py:130-133). */
  datatype ConnState = Disconnected | Connecting | Authenticating | Authenticated

  /** The numeric code the library stores in `self.state`. */
  function StateCode(s: ConnState): (c: int)
    ensures 0 <= c <= 3
    ensures c == 0 <==> s == Disconnected
    ensures c == 1 <==> s == Connecting
    ensures c == 2 <==> s == Authenticating
    ensures c == 3 <==> s == Authenticated
  {
    match s
    case Disconnected => 0
    case Connecting => 1
    case Authenticating => 2
    case Authenticated => 3
  }

  /** The library tests the state by comparing codes (`self.state ==
      AUTHENTICATED` at BlynkLib.py:183, 394 and 406-426, `!=` at :530); the
      model tests the `ConnState` itself. The two agree: equal codes mean equal
      states, and the code is 3 exactly in AUTHENTICATED. */
  lemma StateCodeComparisons(s: ConnState, t: ConnState)
    ensures StateCode(s) == StateCode(t) <==> s == t
    ensures StateCode(s) == 3 <==> s == Authenticated
    ensures StateCode(s) != 3 <==> s != Authenticated
  {
  }

  /** The exceptions that leave an operation. */
  datatype Exc =
    | ValueError          // int() of a non-number, an unknown pin mode or command, a bad virtual pin
    | IndexError          // pop() from an exhausted field list
    | UnicodeError        // a body byte outside ASCII
    | StructError         // a header field out of range for struct.pack
    | SocketError(errno: int)
    | CallbackRaised      // a user callback raised

  /** What an operation does: return a value, or raise. */
  datatype Outcome<T> = Ok(value: T) | Err(exc: Exc)

  // ---------------------------------------------------------------------------
  // The socket, as scripted outcomes

  /** What one `conn.send(data)` attempt does. */
  datatype SendEvent = Accepted | SendFailed(errno: int)

  /** What one `conn.recv(n)` does: deliver bytes, time out, or fail with an errno. */
  datatype RecvEvent = Chunk(data: Bytes) | TimedOut | RecvFailed(errno: int)

  // ---------------------------------------------------------------------------
  // Pins and user callbacks

  /** The three pin namespaces; the same number names unrelated pins in each. */
  datatype Namespace = Virtual | Digital | Analog

  /** A registered pin: the identities of its read and write callbacks, if any. */
  datatype PinEntry = PinEntry(read: Option<nat>, write: Option<nat>)

  /** The three registries `_vr_pins`, `_digital_hw_pins`, `_analog_hw_pins`. */
  datatype Pins = Pins(virtual: map<int, PinEntry>, digital: map<int, PinEntry>, analog: map<int, PinEntry>)

  /** The argument a write callback receives: the field text (`vw`) or an int (`dw`, `aw`). */
  datatype WriteArg = TextArg(text: Bytes) | IntArg(n: int)

  /** One invocation of user code, as recorded in the call log. */
  datatype Call =
    | ReadCall(ns: Namespace, pin: int, handler: nat)
    | WriteCall(ns: Namespace, pin: int, handler: nat, arg: WriteArg)
    | TaskCall(handler: nat)
    | ConnectCall(handler: nat)

  /** How a callback ends: it returns a value (given as the text `str()` makes of
      it), raises NoValueToReport, or raises anything else. For a write, task or
      on-connect callback only `Value` is a normal return. */
  datatype Reaction = Value(text: Bytes) | NoValue | Failure

  // ---------------------------------------------------------------------------
  // Snapshots of the mutable state

  /** The send side: the message-id counter, the per-second transmit counter,
      the outcomes the socket will give to coming send attempts, and every
      buffer the socket has accepted so far. */
  datatype Outbox = Outbox(msgId: int, txCount: int, script: seq<SendEvent>, wire: seq<Bytes>)

  /** The receive side: the reassembly buffer `_rx_data` and what the socket
      will deliver next. */
  datatype Inbound = Inbound(rx: Bytes, inbox: seq<RecvEvent>)

  /** Everything the session engine reads or changes. */
  datatype World = World(
    state: ConnState,
    doConnect: bool,
    connects: seq<bool>,   // outcomes of coming connect attempts
    open: bool,            // the transport is connected
    inb: Inbound,
    out: Outbox,
    pinsConfigured: bool,
    pins: Pins,
    calls: seq<Call>,
    mTime: int,
    hbTime: int,
    lastHbId: int)

  /** The invariant every operation of a started session keeps. */
  predicate WorldValid(w: World) {
    && 1 <= w.out.msgId <= 0xFFFF
    && 0 <= w.lastHbId <= 0xFFFF
    && w.out.txCount >= 0
    && (forall p :: p in w.pins.virtual ==> 0 <= p < MAX_VIRTUAL_PINS)
  }

  /** The user code, as a script: the reaction of a callback is fixed by the
      call and by its position in the call log. */
  type Responder = (Call, nat) -> Reaction

  /** Run one callback: it is appended to the call log and reacts as scripted. */
  function Invoke(w: World, respond: Responder, c: Call): (World, Reaction)
  {
    (w.(calls := w.calls + [c]), respond(c, |w.calls|))
  }

  /** _close (BlynkLib.py:380-385): close the transport and fall back to DISCONNECTED. */
  function Close(w: World): (r: World)
    ensures r.state == Disconnected && !r.open
  {
    w.(state := Disconnected, open := false)
  }
}
