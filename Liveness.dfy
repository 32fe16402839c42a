/** The once-per-second liveness step `_server_alive` (BlynkLib.py:387-398),
    with the wall-clock second `c_time` as a parameter. On a new second it
    resets the transmit counter, reports the server dead when a heartbeat has
    been outstanding for MAX_SOCK_TO seconds, and otherwise, when
    authenticated and HB_PERIOD seconds have passed, sends a PING that
    bypasses the rate cap and records its id as outstanding. */
module Liveness {
  import opened Wire
  import opened Types
  import opened MsgIds
  import opened Transmit

  /** _server_alive with the clock reading `cTime`. */
  function AliveEffect(w: World, cTime: int): (World, Outcome<bool>)
  {
    if w.mTime == cTime then (w, Ok(true))
    else
      var w1 := w.(mTime := cTime, out := w.out.(txCount := 0));
      if w1.lastHbId != 0 && cTime - w1.hbTime >= MAX_SOCK_TO then (w1, Ok(false))
      else if cTime - w1.hbTime >= HB_PERIOD && w1.state == Authenticated then Heartbeat(w1, cTime)
      else (w1, Ok(true))
  }

  /** The heartbeat branch: record the time and a fresh id as outstanding,
      then send a bodyless PING with that id, bypassing the rate cap. */
  function Heartbeat(w: World, cTime: int): (World, Outcome<bool>)
  {
    var id := NextId(w.out.msgId);
    var w2 := w.(hbTime := cTime, lastHbId := id, out := w.out.(msgId := id));
    match Pack(Header(MSG_PING, id, 0))
    case None => (w2, Err(StructError))
    case Some(ping) =>
      var (o3, r) := SendEffect(w2.out, ping, true);
      (w2.(out := o3), if r.Err? then Err(r.exc) else Ok(true))
  }

  /** Within the same second the step does nothing. */
  lemma AliveSameSecond(w: World, cTime: int)
    requires w.mTime == cTime
    ensures AliveEffect(w, cTime) == (w, Ok(true))
  {
  }

  /** The step reports the server dead exactly when it is a new second and a
      heartbeat has been outstanding for MAX_SOCK_TO seconds or more. */
  lemma AliveDeadIff(w: World, cTime: int)
    ensures AliveEffect(w, cTime).1 == Ok(false) <==>
      w.mTime != cTime && w.lastHbId != 0 && cTime - w.hbTime >= MAX_SOCK_TO
  {
  }

  /** The heartbeat is due: on a new second, with no overdue heartbeat, while
      authenticated and HB_PERIOD seconds after the last one. */
  predicate PingDue(w: World, cTime: int) {
    && w.mTime != cTime
    && !(w.lastHbId != 0 && cTime - w.hbTime >= MAX_SOCK_TO)
    && cTime - w.hbTime >= HB_PERIOD
    && w.state == Authenticated
  }

  /** On a new second: the second is recorded, the transmit counter restarts
      from zero (it is at most one afterwards, for the ping), and only the
      clock fields and the send side change. */
  lemma AliveNewSecond(w: World, cTime: int)
    requires WorldValid(w)
    requires w.mTime != cTime
    ensures var (w2, r) := AliveEffect(w, cTime);
      && w2.mTime == cTime
      && (w2.out.txCount == 0 || (PingDue(w, cTime) && w2.out.txCount == 1))
      && w2.(mTime := w.mTime, hbTime := w.hbTime, lastHbId := w.lastHbId, out := w.out) == w
      && w2.out.script == Drop(w.out.script, |w.out.script| - |w2.out.script|)
  {
    if PingDue(w, cTime) {
      var id := NextId(w.out.msgId);
      NextIdRange(w.out.msgId);
      var o := w.out.(txCount := 0, msgId := id);
      SendSpec(o, Pack(Header(MSG_PING, id, 0)).value, true);
    }
  }

  /** When the heartbeat is due: the time and a fresh nonzero id are recorded
      as the outstanding heartbeat, and a bodyless PING carrying that id is the
      one frame that may go out, despite the rate cap. */
  lemma AlivePings(w: World, cTime: int)
    requires WorldValid(w)
    requires PingDue(w, cTime)
    ensures var (w2, r) := AliveEffect(w, cTime);
      var id := NextId(w.out.msgId);
      && w2.hbTime == cTime
      && w2.lastHbId == id && 1 <= id <= MAX_ID
      && w2.out.msgId == id
      && Pack(Header(MSG_PING, id, 0)).Some?
      && (w2.out.wire == w.out.wire || w2.out.wire == w.out.wire + [Pack(Header(MSG_PING, id, 0)).value])
      && (NextAttempt(w.out.script) == Accepted ==>
            r == Ok(true) && w2.out.wire == w.out.wire + [Pack(Header(MSG_PING, id, 0)).value])
      && (r.Ok? ==> r.value)
  {
    var id := NextId(w.out.msgId);
    NextIdRange(w.out.msgId);
    var o := w.out.(txCount := 0, msgId := id);
    SendSpec(o, Pack(Header(MSG_PING, id, 0)).value, true);
  }

  /** When no heartbeat is due and the server is not dead, the heartbeat
      bookkeeping, the id counter and the wire are left alone. */
  lemma AliveQuiet(w: World, cTime: int)
    requires !PingDue(w, cTime)
    requires !(w.mTime != cTime && w.lastHbId != 0 && cTime - w.hbTime >= MAX_SOCK_TO)
    ensures var (w2, r) := AliveEffect(w, cTime);
      && r == Ok(true)
      && w2.hbTime == w.hbTime && w2.lastHbId == w.lastHbId
      && w2.out.msgId == w.out.msgId && w2.out.wire == w.out.wire
  {
  }

  /** The step keeps the session invariant. */
  lemma AlivePreservesValid(w: World, cTime: int)
    requires WorldValid(w)
    ensures WorldValid(AliveEffect(w, cTime).0)
  {
    if w.mTime != cTime {
      if PingDue(w, cTime) {
        AlivePings(w, cTime);
        var id := NextId(w.out.msgId);
        var o := w.out.(txCount := 0, msgId := id);
        SendSpec(o, Pack(Header(MSG_PING, id, 0)).value, true);
      }
    }
  }
}
