/** The environment of a Blynk object, as mutable objects driven by scripts:
    the TCP connection `self.conn` and the user code behind the registered
    callbacks. Each operation consumes the next scripted outcome, so a client
    run is determined by its scripts. */
module Environment {
  import opened Wire
  import opened Types
  import opened Transmit
  import opened Reassembly
  import opened Session

  /** The connection: outcomes of coming connect attempts, whether it is open,
      what recv will deliver, the outcomes of coming send attempts, and every
      buffer sent so far. */
  class Transport {
    var connects: seq<bool>
    var open: bool
    var inbox: seq<RecvEvent>
    var script: seq<SendEvent>
    var wire: seq<Bytes>

    constructor (connects: seq<bool>, inbox: seq<RecvEvent>, script: seq<SendEvent>)
      ensures this.connects == connects && this.inbox == inbox && this.script == script
      ensures wire == [] && !open
    {
      this.connects := connects;
      this.inbox := inbox;
      this.script := script;
      wire := [];
      open := false;
    }

    /** socket() and conn.connect(...): the next scripted attempt. */
    method Connect() returns (ok: bool)
      modifies this
      ensures ok == NextConnect(old(connects)) && connects == AfterConnect(old(connects))
      ensures open == ok
      ensures inbox == old(inbox) && script == old(script) && wire == old(wire)
    {
      ok := NextConnect(connects);
      connects := AfterConnect(connects);
      open := ok;
    }

    /** conn.recv(n). */
    method Recv(n: nat) returns (ev: RecvEvent)
      modifies this
      ensures (ev, inbox) == Deliver(old(inbox), n)
      ensures ev.Chunk? ==> |ev.data| <= n
      ensures connects == old(connects) && open == old(open) && script == old(script) && wire == old(wire)
    {
      DeliverSpec(inbox, n);
      var next := Deliver(inbox, n);
      ev := next.0;
      inbox := next.1;
    }

    /** One conn.send(data) attempt: the data goes out exactly when accepted. */
    method SendAttempt(data: Bytes) returns (ev: SendEvent)
      modifies this
      ensures ev == NextAttempt(old(script)) && script == AfterAttempt(old(script))
      ensures wire == if ev == Accepted then old(wire) + [data] else old(wire)
      ensures connects == old(connects) && open == old(open) && inbox == old(inbox)
    {
      ev := NextAttempt(script);
      script := AfterAttempt(script);
      if ev == Accepted {
        wire := wire + [data];
      }
    }

    /** conn.close(). */
    method Close()
      modifies this
      ensures !open
      ensures connects == old(connects) && inbox == old(inbox) && script == old(script) && wire == old(wire)
    {
      open := false;
    }
  }

  /** The user code: how each callback reacts, and the log of calls made. */
  class UserCode {
    const respond: Responder
    var calls: seq<Call>

    constructor (respond: Responder)
      ensures this.respond == respond && calls == []
    {
      this.respond := respond;
      calls := [];
    }

    /** Call one callback. */
    method Call(c: Call) returns (re: Reaction)
      modifies this
      ensures re == respond(c, |old(calls)|)
      ensures calls == old(calls) + [c]
    {
      re := respond(c, |calls|);
      calls := calls + [c];
    }
  }
}
