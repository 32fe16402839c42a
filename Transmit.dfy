/** The send path: `_format_msg` (BlynkLib.py:241-243), which takes a fresh
    message id for every frame it builds, and `_send` (BlynkLib.py:365-378),
    which drops a send once 20 frames went out in the current second (unless
    told to send anyway) and otherwise tries up to MAX_TX_RETRIES + 1 times,
    retrying only when the socket reports EAGAIN. */
module Transmit {
  import opened Wire
  import opened Types
  import opened MsgIds

  /** The outcome of the next send attempt; a socket with nothing scripted accepts. */
  function NextAttempt(script: seq<SendEvent>): SendEvent {
    if script == [] then Accepted else script[0]
  }

  function AfterAttempt(script: seq<SendEvent>): seq<SendEvent> {
    if script == [] then [] else script[1..]
  }

  /** The outcome of the attempt `k` places ahead. */
  function AttemptAt(script: seq<SendEvent>, k: nat): SendEvent {
    if k < |script| then script[k] else Accepted
  }

  /** The script after `n` attempts. */
  function Drop(script: seq<SendEvent>, n: nat): seq<SendEvent> {
    if n <= |script| then script[n..] else []
  }

  predicate IsEagain(e: SendEvent) { e == SendFailed(EAGAIN) }

  /** The retry loop of BlynkLib.py:367-378, entered with `retries` attempts
      already used up. */
  function RetryLoop(o: Outbox, data: Bytes, retries: nat): (Outbox, Outcome<()>)
    decreases MAX_TX_RETRIES + 1 - retries
  {
    if retries > MAX_TX_RETRIES then (o, Ok(()))
    else
      var o1 := o.(script := AfterAttempt(o.script));
      match NextAttempt(o.script)
      case Accepted => (o1.(txCount := o1.txCount + 1, wire := o1.wire + [data]), Ok(()))
      case SendFailed(e) =>
        if e != EAGAIN then (o1, Err(SocketError(e)))
        else RetryLoop(o1, data, retries + 1)
  }

  /** _send(data, send_anyway). */
  function SendEffect(o: Outbox, data: Bytes, sendAnyway: bool): (Outbox, Outcome<()>)
  {
    if o.txCount < MAX_MSG_PER_SEC || sendAnyway then RetryLoop(o, data, 0) else (o, Ok(()))
  }

  /** How many attempts a loop with `budget` attempts left makes: it stops at the
      first attempt that does not fail with EAGAIN. */
  function Attempts(script: seq<SendEvent>, budget: nat): nat
    decreases budget
  {
    if budget == 0 then 0
    else if IsEagain(NextAttempt(script)) then 1 + Attempts(AfterAttempt(script), budget - 1)
    else 1
  }

  lemma AttemptAtAfter(script: seq<SendEvent>, k: nat)
    ensures AttemptAt(AfterAttempt(script), k) == AttemptAt(script, k + 1)
    ensures AttemptAt(script, 0) == NextAttempt(script)
  {
  }

  lemma DropAfter(script: seq<SendEvent>, n: nat)
    ensures Drop(AfterAttempt(script), n) == Drop(script, n + 1)
  {
  }

  /** Exactly what the retry loop does. With n = the attempts it makes: n is at
      most the budget; every attempt but the last failed with EAGAIN; it stops
      early only on an attempt that was not EAGAIN; the last attempt decides --
      accepted: the data goes out and the counter goes up by one; another
      error: it is raised; EAGAIN (budget spent): nothing is sent. The id
      counter is never touched. */
  lemma RetryLoopSpec(o: Outbox, data: Bytes, retries: nat)
    requires retries <= MAX_TX_RETRIES + 1
    ensures var (o2, r) := RetryLoop(o, data, retries);
      var n := Attempts(o.script, MAX_TX_RETRIES + 1 - retries);
      && n <= MAX_TX_RETRIES + 1 - retries
      && (forall j :: 0 <= j < n - 1 ==> IsEagain(AttemptAt(o.script, j)))
      && (n < MAX_TX_RETRIES + 1 - retries ==> n > 0 && !IsEagain(AttemptAt(o.script, n - 1)))
      && (n > 0 && AttemptAt(o.script, n - 1) == Accepted ==>
            r == Ok(()) && o2 == o.(script := Drop(o.script, n), txCount := o.txCount + 1, wire := o.wire + [data]))
      && (n > 0 && AttemptAt(o.script, n - 1).SendFailed? && AttemptAt(o.script, n - 1).errno != EAGAIN ==>
            r == Err(SocketError(AttemptAt(o.script, n - 1).errno)) && o2 == o.(script := Drop(o.script, n)))
      && (n == 0 || IsEagain(AttemptAt(o.script, n - 1)) ==>
            r == Ok(()) && o2 == o.(script := Drop(o.script, n)))
  {
    AttemptsShape(o.script, MAX_TX_RETRIES + 1 - retries);
    RetryLoopResult(o, data, retries);
  }

  /** The attempts a loop with `budget` attempts left makes: at most the
      budget, all but the last failing with EAGAIN, and fewer than the budget
      only when the last was not EAGAIN. */
  lemma {:induction false} AttemptsShape(script: seq<SendEvent>, budget: nat)
    ensures var n := Attempts(script, budget);
      && n <= budget
      && (forall j :: 0 <= j < n - 1 ==> IsEagain(AttemptAt(script, j)))
      && (n < budget ==> n > 0 && !IsEagain(AttemptAt(script, n - 1)))
    decreases budget
  {
    if budget > 0 {
      AttemptAtAfter(script, 0);
      if IsEagain(NextAttempt(script)) {
        var s1 := AfterAttempt(script);
        AttemptsShape(s1, budget - 1);
        var m := Attempts(s1, budget - 1);
        forall j | 0 <= j < m
          ensures AttemptAt(s1, j) == AttemptAt(script, j + 1)
        {
          AttemptAtAfter(script, j);
        }
        forall j | 0 <= j < m
          ensures IsEagain(AttemptAt(script, j))
        {
          if j > 0 {
            assert AttemptAt(s1, j - 1) == AttemptAt(script, j);
          }
        }
      }
    }
  }

  /** What a retry loop that made `n` attempts leaves behind: the attempts are
      consumed; after an accepted last attempt the data is on the wire and
      counted, after another error that error is raised, and after EAGAIN (or
      no attempt at all) nothing was sent. */
  function RetryFinish(o: Outbox, data: Bytes, n: nat): (Outbox, Outcome<()>)
  {
    var o2 := o.(script := Drop(o.script, n));
    if n > 0 && AttemptAt(o.script, n - 1) == Accepted then
      (o2.(txCount := o.txCount + 1, wire := o.wire + [data]), Ok(()))
    else if n > 0 && AttemptAt(o.script, n - 1).SendFailed? && AttemptAt(o.script, n - 1).errno != EAGAIN then
      (o2, Err(SocketError(AttemptAt(o.script, n - 1).errno)))
    else (o2, Ok(()))
  }

  /** One EAGAIN attempt in front of the script shifts the finish by one. */
  lemma RetryFinishAfter(o: Outbox, data: Bytes, m: nat)
    requires IsEagain(NextAttempt(o.script))
    ensures RetryFinish(o.(script := AfterAttempt(o.script)), data, m) == RetryFinish(o, data, m + 1)
  {
    AttemptAtAfter(o.script, 0);
    if m > 0 {
      AttemptAtAfter(o.script, m - 1);
    }
    DropAfter(o.script, m);
  }

  /** The retry loop's result is decided by its last attempt. */
  lemma {:induction false} RetryLoopResult(o: Outbox, data: Bytes, retries: nat)
    requires retries <= MAX_TX_RETRIES + 1
    ensures RetryLoop(o, data, retries) == RetryFinish(o, data, Attempts(o.script, MAX_TX_RETRIES + 1 - retries))
    decreases MAX_TX_RETRIES + 1 - retries
  {
    var budget := MAX_TX_RETRIES + 1 - retries;
    if retries <= MAX_TX_RETRIES {
      AttemptAtAfter(o.script, 0);
      DropAfter(o.script, 0);
      if IsEagain(NextAttempt(o.script)) {
        var o1 := o.(script := AfterAttempt(o.script));
        RetryLoopResult(o1, data, retries + 1);
        RetryFinishAfter(o, data, Attempts(o1.script, budget - 1));
      }
    } else {
      assert Drop(o.script, 0) == o.script;
    }
  }

  /** The rate cap: with 20 or more frames sent this second and no bypass,
      _send does nothing at all. */
  lemma SendCapped(o: Outbox, data: Bytes)
    requires o.txCount >= MAX_MSG_PER_SEC
    ensures SendEffect(o, data, false) == (o, Ok(()))
  {
  }

  /** The bounded retry of _send: at most MAX_TX_RETRIES + 1 = 4 attempts,
      retried only on EAGAIN; the transmit counter grows by exactly one when
      the data went out and is unchanged otherwise; a non-EAGAIN error is
      raised; only the transmit counter, the script and the wire change. */
  lemma SendSpec(o: Outbox, data: Bytes, sendAnyway: bool)
    requires o.txCount < MAX_MSG_PER_SEC || sendAnyway
    ensures var (o2, r) := SendEffect(o, data, sendAnyway);
      var n := Attempts(o.script, MAX_TX_RETRIES + 1);
      && 1 <= n <= MAX_TX_RETRIES + 1
      && o2.script == Drop(o.script, n)
      && o2.msgId == o.msgId
      && (forall j :: 0 <= j < n - 1 ==> IsEagain(AttemptAt(o.script, j)))
      && (o2.wire == o.wire + [data] || o2.wire == o.wire)
      && o2.txCount == o.txCount + (if o2.wire == o.wire then 0 else 1)
      && ((o2.wire != o.wire) <==> AttemptAt(o.script, n - 1) == Accepted)
      && (r.Err? <==> AttemptAt(o.script, n - 1).SendFailed? && AttemptAt(o.script, n - 1).errno != EAGAIN)
      && (r.Err? ==> r.exc == SocketError(AttemptAt(o.script, n - 1).errno))
  {
    RetryLoopSpec(o, data, 0);
  }

  /** Four EAGAINs in a row exhaust the retries: nothing is sent, nothing raised,
      the counter is unchanged. */
  lemma SendGivesUp(o: Outbox, data: Bytes, sendAnyway: bool)
    requires o.txCount < MAX_MSG_PER_SEC || sendAnyway
    requires forall j :: 0 <= j <= MAX_TX_RETRIES ==> IsEagain(AttemptAt(o.script, j))
    ensures SendEffect(o, data, sendAnyway) == (o.(script := Drop(o.script, MAX_TX_RETRIES + 1)), Ok(()))
  {
    RetryLoopSpec(o, data, 0);
  }

  // ---------------------------------------------------------------------------
  // _format_msg and the senders built on it

  /** _format_msg(msg_type, *args): the id is taken before struct.pack runs, so
      it is used up even when the body is too long and struct.error is raised. */
  function FormatEffect(o: Outbox, msgType: int, args: seq<Bytes>): (Outbox, Outcome<Bytes>)
  {
    var id := NextId(o.msgId);
    match Frame(msgType, id, args)
    case None => (o.(msgId := id), Err(StructError))
    case Some(f) => (o.(msgId := id), Ok(f))
  }

  /** self._send(self._format_msg(msg_type, *args), send_anyway). */
  function EmitEffect(o: Outbox, msgType: int, args: seq<Bytes>, sendAnyway: bool): (Outbox, Outcome<()>)
  {
    var (o1, f) := FormatEffect(o, msgType, args);
    match f
    case Err(e) => (o1, Err(e))
    case Ok(frame) => SendEffect(o1, frame, sendAnyway)
  }

  /** Building a frame takes the next id, changes nothing else, and yields
      the frame exactly when the body fits 16 bits; the frame's header then
      unpacks to (type, the new id, body length) and the body splits back
      into the arguments. */
  lemma FormatSpec(o: Outbox, msgType: int, args: seq<Bytes>)
    requires 0 <= o.msgId <= MAX_ID && IsU8(msgType)
    ensures var (o2, f) := FormatEffect(o, msgType, args);
      && o2 == o.(msgId := NextId(o.msgId))
      && 1 <= o2.msgId <= MAX_ID
      && (f.Ok? <==> |Join(args)| < 0x1_0000)
      && (f.Err? ==> f.exc == StructError)
      && (f.Ok? && |args| >= 1 && AllNoNul(args) ==>
            |f.value| == HDR_LEN + |Join(args)|
            && Unpack(f.value[..HDR_LEN]) == Header(msgType, o2.msgId, |Join(args)|)
            && Split(f.value[HDR_LEN..]) == args)
  {
    NextIdRange(o.msgId);
    var id := NextId(o.msgId);
    FrameDefined(msgType, id, args);
    if |Join(args)| < 0x1_0000 && |args| >= 1 && AllNoNul(args) {
      FrameRoundTrip(msgType, id, args);
    }
  }

  /** A format-and-send puts at most one frame on the wire -- the frame for the
      fresh id -- and always uses up one id. */
  lemma EmitAtMostOne(o: Outbox, msgType: int, args: seq<Bytes>, sendAnyway: bool)
    requires 0 <= o.msgId <= MAX_ID && IsU8(msgType)
    ensures var (o2, r) := EmitEffect(o, msgType, args, sendAnyway);
      && o2.msgId == NextId(o.msgId)
      && (o2.wire == o.wire ||
          (Frame(msgType, NextId(o.msgId), args).Some? && o2.wire == o.wire + [Frame(msgType, NextId(o.msgId), args).value]))
      && (o2.wire != o.wire ==> o2.txCount == o.txCount + 1)
      && (o2.wire == o.wire ==> o2.txCount == o.txCount)
  {
    FormatSpec(o, msgType, args);
    var (o1, f) := FormatEffect(o, msgType, args);
    if f.Ok? {
      if o1.txCount < MAX_MSG_PER_SEC || sendAnyway {
        SendSpec(o1, f.value, sendAnyway);
      }
    }
  }

  /** When the first attempt is accepted and the cap allows it, a format-and-send
      puts exactly that one frame on the wire. */
  lemma EmitDelivers(o: Outbox, msgType: int, args: seq<Bytes>, sendAnyway: bool)
    requires 0 <= o.msgId <= MAX_ID && IsU8(msgType)
    requires |Join(args)| < 0x1_0000
    requires o.txCount < MAX_MSG_PER_SEC || sendAnyway
    requires NextAttempt(o.script) == Accepted
    ensures var (o2, r) := EmitEffect(o, msgType, args, sendAnyway);
      && r == Ok(())
      && Frame(msgType, NextId(o.msgId), args).Some?
      && o2.wire == o.wire + [Frame(msgType, NextId(o.msgId), args).value]
      && o2.txCount == o.txCount + 1
  {
    FormatSpec(o, msgType, args);
  }
}
