/** The receive reassembly buffer of `_recv` (BlynkLib.py:347-363): whatever
    one `conn.recv(length)` delivers is appended to `_rx_data`; the call hands
    out exactly `length` bytes once that many are buffered, and nothing
    otherwise. A timeout or EAGAIN hands out nothing; any other socket error
    is raised. */
module Reassembly {
  import opened Wire
  import opened Types

  /** conn.recv(n): the next event, a chunk cut to at most n bytes with the
      remainder left queued; recv(0) returns nothing and consumes nothing; a
      socket with nothing more scripted times out. */
  function Deliver(inbox: seq<RecvEvent>, n: nat): (RecvEvent, seq<RecvEvent>)
  {
    if n == 0 then (Chunk([]), inbox)
    else if inbox == [] then (TimedOut, [])
    else match inbox[0]
      case Chunk(c) =>
        if |c| <= n then (Chunk(c), inbox[1..]) else (Chunk(c[..n]), [Chunk(c[n..])] + inbox[1..])
      case other => (other, inbox[1..])
  }

  /** The bytes one recv(n) call takes from the socket. */
  function Received(inbox: seq<RecvEvent>, n: nat): Bytes
  {
    var (ev, _) := Deliver(inbox, n);
    if ev.Chunk? then ev.data else []
  }

  /** The bytes still queued in the socket, in arrival order. */
  function Queued(inbox: seq<RecvEvent>): Bytes
    decreases |inbox|
  {
    if inbox == [] then [] else (if inbox[0].Chunk? then inbox[0].data else []) + Queued(inbox[1..])
  }

  /** The bytes buffered or still queued: what later reads can hand out. */
  function Pending(i: Inbound): Bytes {
    i.rx + Queued(i.inbox)
  }

  /** _recv(length). */
  function RecvEffect(i: Inbound, length: nat): (r: (Inbound, Outcome<Bytes>))
    ensures r.1.Ok? ==> |r.1.value| == 0 || |r.1.value| == length
  {
    var (ev, rest) := Deliver(i.inbox, length);
    match ev
    case TimedOut => (Inbound(i.rx, rest), Ok([]))
    case RecvFailed(e) =>
      if e == EAGAIN then (Inbound(i.rx, rest), Ok([])) else (Inbound(i.rx, rest), Err(SocketError(e)))
    case Chunk(c) =>
      var buf := i.rx + c;
      if |buf| >= length then (Inbound(buf[length..], rest), Ok(buf[..length]))
      else (Inbound(buf, rest), Ok([]))
  }

  /** recv(n) takes at most n bytes, and the bytes it takes are exactly the
      front of what was queued. */
  lemma DeliverSpec(inbox: seq<RecvEvent>, n: nat)
    ensures var (ev, rest) := Deliver(inbox, n);
      && (ev.Chunk? ==> |ev.data| <= n)
      && Queued(inbox) == Received(inbox, n) + Queued(rest)
  {
    if n > 0 && inbox != [] && inbox[0].Chunk? {
      var c := inbox[0].data;
      if |c| > n {
        var rest := [Chunk(c[n..])] + inbox[1..];
        assert rest[1..] == inbox[1..];
        assert Queued(rest) == c[n..] + Queued(inbox[1..]);
        assert c == c[..n] + c[n..];
      }
    }
  }

  /** What _recv does, in full: with `got` the bytes this call took from the
      socket (at most `length`), a returned block is the first `length` bytes
      of the old buffer followed by `got`, and the buffer keeps the remainder;
      an empty return keeps the old buffer followed by `got`; an error leaves
      the buffer as it was. */
  lemma RecvSpec(i: Inbound, length: nat)
    ensures var (i2, r) := RecvEffect(i, length);
      var got := Received(i.inbox, length);
      && |got| <= length
      && (r.Ok? && r.value != [] ==>
            |r.value| == length && r.value == (i.rx + got)[..length] && i2.rx == (i.rx + got)[length..])
      && (r == Ok([]) ==> i2.rx == i.rx + got)
      && (r.Err? ==> i2.rx == i.rx && got == [])
  {
    DeliverSpec(i.inbox, length);
  }

  /** Buffer conservation: no byte is lost or invented. A returned block
      followed by everything still pending is everything that was pending. */
  lemma {:induction false} RecvConserves(i: Inbound, length: nat)
    ensures var (i2, r) := RecvEffect(i, length);
      r.Ok? ==> r.value + Pending(i2) == Pending(i)
    ensures var (i2, r) := RecvEffect(i, length);
      r.Err? ==> Pending(i2) == Pending(i)
  {
    DeliverSpec(i.inbox, length);
    var (ev, rest) := Deliver(i.inbox, length);
    assert Queued(i.inbox) == Received(i.inbox, length) + Queued(rest);
    if ev.Chunk? {
      var buf := i.rx + ev.data;
      if |buf| >= length {
        assert RecvEffect(i, length) == (Inbound(buf[length..], rest), Ok(buf[..length]));
        CutConserves(i.rx, ev.data, Queued(rest), length);
      } else {
        assert RecvEffect(i, length) == (Inbound(buf, rest), Ok([]));
        assert Pending(i) == buf + Queued(rest);
      }
    } else {
      assert Received(i.inbox, length) == [];
      assert RecvEffect(i, length).0 == Inbound(i.rx, rest);
    }
  }

  /** Appending a chunk and cutting a block off the front loses no byte. */
  lemma CutConserves(rx: Bytes, c: Bytes, q: Bytes, length: nat)
    requires |rx + c| >= length
    ensures (rx + c)[..length] + ((rx + c)[length..] + q) == rx + (c + q)
  {
    var buf := rx + c;
    assert buf == buf[..length] + buf[length..];
  }

  /** A returned block is the front of what was pending: the bytes arrive in
      order, whatever the chunking. */
  lemma RecvInOrder(i: Inbound, length: nat)
    ensures var (i2, r) := RecvEffect(i, length);
      r.Ok? ==> r.value == Pending(i)[..|r.value|]
  {
    RecvConserves(i, length);
  }
}
