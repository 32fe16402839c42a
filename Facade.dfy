/** The outbound facade (BlynkLib.py:405-427): notify, tweet, email,
    virtual_write, sync_all and sync_virtual each build one frame and send it
    under the rate cap, and do nothing at all unless the session is
    AUTHENTICATED. */
module Facade {
  import opened Wire
  import opened Types
  import opened MsgIds
  import opened Transmit

  const CMD_VW: Bytes := [0x76, 0x77]  // vw
  const CMD_VR: Bytes := [0x76, 0x72]  // vr

  /** The message type and arguments of each facade sender. */
  datatype Request =
    | Notify(msg: Bytes)
    | Tweet(msg: Bytes)
    | Email(to: Bytes, subject: Bytes, body: Bytes)
    | VirtualWrite(pin: int, val: Bytes)
    | SyncAll
    | SyncVirtual(pin: int)

  function RequestType(q: Request): int {
    match q
    case Notify(_) => MSG_NOTIFY
    case Tweet(_) => MSG_TWEET
    case Email(_, _, _) => MSG_EMAIL
    case VirtualWrite(_, _) => MSG_HW
    case SyncAll => MSG_HW_SYNC
    case SyncVirtual(_) => MSG_HW_SYNC
  }

  function RequestArgs(q: Request): seq<Bytes> {
    match q
    case Notify(m) => [m]
    case Tweet(m) => [m]
    case Email(t, s, b) => [t, s, b]
    case VirtualWrite(p, v) => [CMD_VW, IntText(p), v]
    case SyncAll => []
    case SyncVirtual(p) => [CMD_VR, IntText(p)]
  }

  /** One facade call: gated on AUTHENTICATED, then format and send under the cap. */
  function FacadeEffect(w: World, q: Request): (World, Outcome<()>)
  {
    if w.state == Authenticated then
      var (o, r) := EmitEffect(w.out, RequestType(q), RequestArgs(q), false);
      (w.(out := o), r)
    else (w, Ok(()))
  }

  /** Outside AUTHENTICATED a facade call changes nothing: no id is used and
      nothing is sent. */
  lemma FacadeGated(w: World, q: Request)
    requires w.state != Authenticated
    ensures FacadeEffect(w, q) == (w, Ok(()))
  {
  }

  /** When authenticated, a facade call changes only the send side, uses up
      exactly one id, and puts at most one frame -- its own -- on the wire; it
      is dropped silently when 20 frames already went out this second. It
      raises struct.error when the body is too long for the header, and
      otherwise at most a socket error. */
  lemma FacadeSends(w: World, q: Request)
    requires WorldValid(w)
    requires w.state == Authenticated
    ensures var (w2, r) := FacadeEffect(w, q);
      var f := Frame(RequestType(q), NextId(w.out.msgId), RequestArgs(q));
      && w2 == w.(out := w2.out)
      && w2.out.msgId == NextId(w.out.msgId)
      && (w2.out.wire == w.out.wire || (f.Some? && w2.out.wire == w.out.wire + [f.value]))
      && (f.None? ==> r == Err(StructError) && w2.out.wire == w.out.wire)
      && (r.Err? ==> r.exc == StructError || r.exc.SocketError?)
      && (w.out.txCount >= MAX_MSG_PER_SEC ==> w2.out.wire == w.out.wire)
  {
    EmitAtMostOne(w.out, RequestType(q), RequestArgs(q), false);
    var (o1, f) := FormatEffect(w.out, RequestType(q), RequestArgs(q));
    if f.Ok? && w.out.txCount >= MAX_MSG_PER_SEC {
      SendCapped(o1, f.value);
    }
  }

  /** The frame virtual_write sends decodes back to ("vw", pin, value): the pin
      text reads back as the same int. */
  lemma VirtualWriteFrameDecodes(id: int, pin: int, val: Bytes)
    requires IsU16(id) && NoNul(val)
    requires |Join([CMD_VW, IntText(pin), val])| < 0x1_0000
    ensures var f := Frame(MSG_HW, id, [CMD_VW, IntText(pin), val]);
      && f.Some?
      && Unpack(f.value[..HDR_LEN]).msgType == MSG_HW
      && Split(f.value[HDR_LEN..]) == [CMD_VW, IntText(pin), val]
      && ParseInt(Split(f.value[HDR_LEN..])[1]) == Some(pin)
  {
    IntTextNoNul(pin);
    assert NoNul(CMD_VW);
    FrameRoundTrip(MSG_HW, id, [CMD_VW, IntText(pin), val]);
    ParseIntText(pin);
  }
}
