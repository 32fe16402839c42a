/** The hardware-command dispatcher `_handle_hw` (BlynkLib.py:245-334): the body
    of a HW or BRIDGE frame is split at NUL into ASCII fields, the first field
    is the command and the rest are its arguments. `info` is ignored; `pm`
    validates pin modes and marks the pins configured; `vw`/`vr` reach the
    virtual-pin callbacks; `dw`/`aw`/`dr`/`ar` reach the hardware-pin callbacks
    and are ignored until the pins are configured, after which any other
    command raises ValueError. */
module Dispatch {
  import opened Wire
  import opened Types
  import opened MsgIds
  import opened Transmit
  import opened Facade

  // The command and mode names as ASCII octets.
  const CMD_INFO: Bytes := [0x69, 0x6e, 0x66, 0x6f]  // info
  const CMD_PM: Bytes := [0x70, 0x6d]                // pm
  const CMD_DW: Bytes := [0x64, 0x77]                // dw
  const CMD_AW: Bytes := [0x61, 0x77]                // aw
  const CMD_DR: Bytes := [0x64, 0x72]                // dr
  const CMD_AR: Bytes := [0x61, 0x72]                // ar

  const MODE_IN: Bytes := [0x69, 0x6e]               // in
  const MODE_OUT: Bytes := [0x6f, 0x75, 0x74]        // out
  const MODE_PU: Bytes := [0x70, 0x75]               // pu
  const MODE_PD: Bytes := [0x70, 0x64]               // pd

  /** A field that x.decode('ascii') accepts. */
  predicate IsAscii(s: Bytes) {
    forall i :: 0 <= i < |s| ==> s[i] < 0x80
  }

  predicate AllAscii(fields: seq<Bytes>) {
    forall i :: 0 <= i < |fields| ==> IsAscii(fields[i])
  }

  /** The commands the dispatcher knows. */
  predicate IsKnownCommand(cmd: Bytes) {
    cmd in {CMD_INFO, CMD_PM, CMD_VW, CMD_VR, CMD_DW, CMD_AW, CMD_DR, CMD_AR}
  }

  /** The commands handled whether or not the pins are configured. */
  predicate IsUngatedCommand(cmd: Bytes) {
    cmd in {CMD_INFO, CMD_PM, CMD_VW, CMD_VR}
  }

  predicate IsPinMode(m: Bytes) {
    m == MODE_IN || m == MODE_OUT || m == MODE_PU || m == MODE_PD
  }

  // ---------------------------------------------------------------------------
  // Registries

  function Registry(p: Pins, ns: Namespace): map<int, PinEntry> {
    match ns
    case Virtual => p.virtual
    case Digital => p.digital
    case Analog => p.analog
  }

  /** The read callback registered for a pin, if any. */
  function ReadHandler(p: Pins, ns: Namespace, pin: int): Option<nat> {
    var m := Registry(p, ns);
    if pin in m then m[pin].read else None
  }

  /** The write callback registered for a pin, if any. */
  function WriteHandler(p: Pins, ns: Namespace, pin: int): Option<nat> {
    var m := Registry(p, ns);
    if pin in m then m[pin].write else None
  }

  // ---------------------------------------------------------------------------
  // pm

  /** Pair k of zip(params[0::2], params[1::2]) is accepted: the pin is an int
      and the mode one of in/out/pu/pd. */
  predicate PairAccepted(rest: seq<Bytes>, k: nat)
    requires 2 * k + 1 < |rest|
  {
    ParseInt(rest[2 * k]).Some? && IsPinMode(rest[2 * k + 1])
  }

  /** Every pair zip makes is accepted; zip stops at the shorter slice, so an
      unpaired last field is never looked at. */
  predicate PinModesAccepted(rest: seq<Bytes>) {
    forall k :: 0 <= k < |rest| / 2 ==> PairAccepted(rest, k)
  }

  /** pm: the first rejected pair raises ValueError (from int() or from the mode
      check) before the flag is set; otherwise the pins are configured. */
  function PinModeEffect(w: World, rest: seq<Bytes>): (World, Outcome<()>)
  {
    if PinModesAccepted(rest) then (w.(pinsConfigured := true), Ok(())) else (w, Err(ValueError))
  }

  // ---------------------------------------------------------------------------
  // vw, dw, aw

  /** The write calls `for param in params` makes, in order. */
  function VirtualWrites(pin: int, h: nat, vals: seq<Bytes>): seq<Call>
    decreases |vals|
  {
    if vals == [] then [] else [WriteCall(Virtual, pin, h, TextArg(vals[0]))] + VirtualWrites(pin, h, vals[1..])
  }

  /** Call the write callback once per value; a raising callback ends the loop
      and the exception leaves _handle_hw. */
  function WriteEach(w: World, respond: Responder, pin: int, h: nat, vals: seq<Bytes>): (World, Outcome<()>)
    decreases |vals|
  {
    if vals == [] then (w, Ok(()))
    else
      var (w1, re) := Invoke(w, respond, WriteCall(Virtual, pin, h, TextArg(vals[0])));
      if re.Value? then WriteEach(w1, respond, pin, h, vals[1..]) else (w1, Err(CallbackRaised))
  }

  /** vw: pop the pin (IndexError if absent, ValueError if not an int), then
      hand every remaining field to the pin's write callback; a pin without one
      is only warned about. */
  function VirtualWriteCmd(w: World, respond: Responder, rest: seq<Bytes>): (World, Outcome<()>)
  {
    if |rest| == 0 then (w, Err(IndexError))
    else match ParseInt(rest[0])
      case None => (w, Err(ValueError))
      case Some(pin) =>
        match WriteHandler(w.pins, Virtual, pin)
        case None => (w, Ok(()))
        case Some(h) => WriteEach(w, respond, pin, h, rest[1..])
  }

  /** dw / aw: pop the pin and the value, both ints, then call the pin's write
      callback with the value; its exception propagates. */
  function HwWriteCmd(w: World, respond: Responder, ns: Namespace, rest: seq<Bytes>): (World, Outcome<()>)
  {
    if |rest| == 0 then (w, Err(IndexError))
    else match ParseInt(rest[0])
      case None => (w, Err(ValueError))
      case Some(pin) =>
        if |rest| == 1 then (w, Err(IndexError))
        else match ParseInt(rest[1])
          case None => (w, Err(ValueError))
          case Some(val) =>
            match WriteHandler(w.pins, ns, pin)
            case None => (w, Ok(()))
            case Some(h) =>
              var (w1, re) := Invoke(w, respond, WriteCall(ns, pin, h, IntArg(val)));
              (w1, if re.Value? then Ok(()) else Err(CallbackRaised))
  }

  // ---------------------------------------------------------------------------
  // vr, dr, ar

  /** The command a read reply carries: vr is answered with vw, dr with dw, ar with aw. */
  function ReplyTag(ns: Namespace): Bytes {
    match ns
    case Virtual => CMD_VW
    case Digital => CMD_DW
    case Analog => CMD_AW
  }

  /** Send the value a read callback returned: virtual pins go through
      virtual_write (which is gated on AUTHENTICATED), hardware pins straight
      to _send. Either way an exception is logged and swallowed. */
  function Reply(w: World, ns: Namespace, pin: int, v: Bytes): World
  {
    if ns == Virtual then FacadeEffect(w, VirtualWrite(pin, v)).0
    else w.(out := EmitEffect(w.out, MSG_HW, [ReplyTag(ns), IntText(pin), v], false).0)
  }

  /** vr / dr / ar: pop the pin, call the pin's read callback, and send what it
      returns; NoValueToReport or any other exception sends nothing. */
  function ReadCmd(w: World, respond: Responder, ns: Namespace, rest: seq<Bytes>): (World, Outcome<()>)
  {
    if |rest| == 0 then (w, Err(IndexError))
    else match ParseInt(rest[0])
      case None => (w, Err(ValueError))
      case Some(pin) =>
        match ReadHandler(w.pins, ns, pin)
        case None => (w, Ok(()))
        case Some(h) =>
          var (w1, re) := Invoke(w, respond, ReadCall(ns, pin, h));
          if re.Value? then (Reply(w1, ns, pin, re.text), Ok(())) else (w1, Ok(()))
  }

  // ---------------------------------------------------------------------------
  // _handle_hw

  /** _handle_hw(data). */
  function HwEffect(w: World, respond: Responder, data: Bytes): (World, Outcome<()>)
  {
    var params := Split(data);
    if !AllAscii(params) then (w, Err(UnicodeError))
    else Dispatch(w, respond, params[0], params[1..])
  }

  /** The command chain of _handle_hw on the decoded fields: info, pm, vw and
      vr always; dw, aw, dr and ar only once the pins are configured; any
      other command raises ValueError there. */
  function Dispatch(w: World, respond: Responder, cmd: Bytes, rest: seq<Bytes>): (World, Outcome<()>)
  {
    if cmd == CMD_INFO then (w, Ok(()))
    else if cmd == CMD_PM then PinModeEffect(w, rest)
    else if cmd == CMD_VW then VirtualWriteCmd(w, respond, rest)
    else if cmd == CMD_VR then ReadCmd(w, respond, Virtual, rest)
    else if !w.pinsConfigured then (w, Ok(()))
    else if cmd == CMD_DW then HwWriteCmd(w, respond, Digital, rest)
    else if cmd == CMD_AW then HwWriteCmd(w, respond, Analog, rest)
    else if cmd == CMD_DR then ReadCmd(w, respond, Digital, rest)
    else if cmd == CMD_AR then ReadCmd(w, respond, Analog, rest)
    else (w, Err(ValueError))
  }

  /** The body is an ASCII command `cmd` with arguments. */
  predicate Command(data: Bytes, cmd: Bytes) {
    AllAscii(Split(data)) && Split(data)[0] == cmd
  }

  function Args(data: Bytes): seq<Bytes> {
    Split(data)[1..]
  }

  // ---------------------------------------------------------------------------
  // Properties

  /** A body with a non-ASCII byte raises UnicodeError before anything happens. */
  lemma HwRejectsNonAscii(w: World, respond: Responder, data: Bytes)
    requires exists i :: 0 <= i < |data| && data[i] >= 0x80
    ensures HwEffect(w, respond, data) == (w, Err(UnicodeError))
  {
    var i :| 0 <= i < |data| && data[i] >= 0x80;
    SplitHasByte(data, i);
  }

  /** Every non-NUL byte of the body lands in some field. */
  lemma {:induction false} SplitHasByte(data: Bytes, i: int)
    requires 0 <= i < |data| && data[i] != NUL
    ensures exists f, j :: 0 <= f < |Split(data)| && 0 <= j < |Split(data)[f]| && Split(data)[f][j] == data[i]
    decreases |data|
  {
    var rest := Split(data[1..]);
    if i == 0 {
      assert Split(data)[0][0] == data[0];
    } else {
      SplitHasByte(data[1..], i - 1);
      var f, j :| 0 <= f < |rest| && 0 <= j < |rest[f]| && rest[f][j] == data[i];
      if data[0] == NUL {
        assert Split(data)[f + 1] == rest[f];
      } else if f == 0 {
        assert Split(data)[0][j + 1] == rest[0][j];
      } else {
        assert Split(data)[f] == rest[f];
      }
    }
  }

  /** `info` is accepted and ignored. */
  lemma HwInfoIgnored(w: World, respond: Responder, data: Bytes)
    requires Command(data, CMD_INFO)
    ensures HwEffect(w, respond, data) == (w, Ok(()))
  {
  }

  /** pm either raises ValueError and leaves everything as it was -- in
      particular the pins stay unconfigured if they were -- or sets the
      configured flag and changes nothing else; it succeeds exactly when every
      complete (pin, mode) pair is accepted. */
  lemma PinModeSpec(w: World, respond: Responder, data: Bytes)
    requires Command(data, CMD_PM)
    ensures var (w2, r) := HwEffect(w, respond, data);
      && (r.Ok? <==> PinModesAccepted(Args(data)))
      && (r.Ok? ==> w2 == w.(pinsConfigured := true))
      && (r.Err? ==> r.exc == ValueError && w2 == w)
  {
  }

  /** An unpaired last field does not affect pm. */
  lemma PinModeIgnoresUnpaired(rest: seq<Bytes>, extra: Bytes)
    requires |rest| % 2 == 0
    ensures PinModesAccepted(rest + [extra]) == PinModesAccepted(rest)
  {
    var r2 := rest + [extra];
    assert |r2| / 2 == |rest| / 2;
    forall k | 0 <= k < |rest| / 2
      ensures PairAccepted(r2, k) == PairAccepted(rest, k)
    {
      assert r2[2 * k] == rest[2 * k] && r2[2 * k + 1] == rest[2 * k + 1];
    }
  }

  /** The fields of a pm command for a list of (pin, mode) pairs, as the server
      writes them. */
  function PmFields(pairs: seq<(int, Bytes)>): seq<Bytes>
    decreases |pairs|
  {
    if pairs == [] then [] else [IntText(pairs[0].0), pairs[0].1] + PmFields(pairs[1..])
  }

  lemma {:induction false} PmFieldsShape(pairs: seq<(int, Bytes)>)
    ensures |PmFields(pairs)| == 2 * |pairs|
    ensures forall k :: 0 <= k < |pairs| ==>
      PmFields(pairs)[2 * k] == IntText(pairs[k].0) && PmFields(pairs)[2 * k + 1] == pairs[k].1
    decreases |pairs|
  {
    if pairs != [] {
      PmFieldsShape(pairs[1..]);
      var t := PmFields(pairs[1..]);
      forall k | 1 <= k < |pairs|
        ensures PmFields(pairs)[2 * k] == t[2 * (k - 1)] && PmFields(pairs)[2 * k + 1] == t[2 * (k - 1) + 1]
      {
      }
    }
  }

  lemma DigitsAscii(n: nat)
    ensures IsAscii(Digits(n)) && NoNul(Digits(n))
  {
    var d := Digits(n);
    assert forall k :: 0 <= k < |d| ==> IsDigit(d[k]);
  }

  lemma IntTextAscii(i: int)
    ensures IsAscii(IntText(i))
  {
    var s := IntText(i);
    if i < 0 {
      DigitsAscii(-i);
      assert forall k :: 1 <= k < |s| ==> s[k] == Digits(-i)[k - 1];
    } else {
      DigitsAscii(i);
    }
  }

  /** The fields of a pm list are ASCII and free of NUL when its modes are valid. */
  lemma {:induction false} PmFieldsClean(pairs: seq<(int, Bytes)>)
    requires forall k :: 0 <= k < |pairs| ==> IsPinMode(pairs[k].1)
    ensures AllAscii(PmFields(pairs)) && AllNoNul(PmFields(pairs))
    decreases |pairs|
  {
    if pairs != [] {
      PmFieldsClean(pairs[1..]);
      IntTextAscii(pairs[0].0);
      IntTextNoNul(pairs[0].0);
      var head := [IntText(pairs[0].0), pairs[0].1];
      var t := PmFields(pairs[1..]);
      assert PmFields(pairs) == head + t;
      forall i | 0 <= i < |head + t|
        ensures IsAscii((head + t)[i]) && NoNul((head + t)[i])
      {
        if i >= 2 {
          assert (head + t)[i] == t[i - 2];
        }
      }
    }
  }

  /** Every pair of a pm list with valid modes is accepted. */
  lemma PmFieldsAccepted(pairs: seq<(int, Bytes)>)
    requires forall k :: 0 <= k < |pairs| ==> IsPinMode(pairs[k].1)
    ensures PinModesAccepted(PmFields(pairs))
  {
    PmFieldsShape(pairs);
    var t := PmFields(pairs);
    forall k | 0 <= k < |t| / 2
      ensures PairAccepted(t, k)
    {
      ParseIntText(pairs[k].0);
    }
  }

  /** The body of a pm list splits back into "pm" and the list's fields. */
  lemma PmBodySplits(pairs: seq<(int, Bytes)>)
    requires forall k :: 0 <= k < |pairs| ==> IsPinMode(pairs[k].1)
    ensures Split(Join([CMD_PM] + PmFields(pairs))) == [CMD_PM] + PmFields(pairs)
    ensures AllAscii([CMD_PM] + PmFields(pairs))
  {
    PmFieldsClean(pairs);
    PmCommandSplits(PmFields(pairs));
  }

  lemma PmCommandSplits(t: seq<Bytes>)
    requires AllAscii(t) && AllNoNul(t)
    ensures Split(Join([CMD_PM] + t)) == [CMD_PM] + t
    ensures AllAscii([CMD_PM] + t)
  {
    assert IsAscii(CMD_PM) && NoNul(CMD_PM);
    SplitCons(CMD_PM, t);
  }

  /** A command followed by clean fields splits back after joining. */
  lemma SplitCons(head: Bytes, t: seq<Bytes>)
    requires IsAscii(head) && NoNul(head) && AllAscii(t) && AllNoNul(t)
    ensures AllAscii([head] + t) && AllNoNul([head] + t)
    ensures Split(Join([head] + t)) == [head] + t
  {
    ConsClean(head, t);
    SplitJoin([head] + t);
  }

  /** Putting a clean field in front keeps a field list clean. */
  lemma ConsClean(head: Bytes, t: seq<Bytes>)
    requires IsAscii(head) && NoNul(head) && AllAscii(t) && AllNoNul(t)
    ensures AllAscii([head] + t) && AllNoNul([head] + t)
  {
    forall i | 1 <= i < |[head] + t|
      ensures ([head] + t)[i] == t[i - 1]
    {
    }
  }

  /** A pm command built from pins and valid modes configures the pins; this
      is the round trip from the server's pm list through the body encoding
      and back. */
  lemma PinModeBuilt(w: World, respond: Responder, pairs: seq<(int, Bytes)>)
    requires forall k :: 0 <= k < |pairs| ==> IsPinMode(pairs[k].1)
    ensures HwEffect(w, respond, Join([CMD_PM] + PmFields(pairs))) == (w.(pinsConfigured := true), Ok(()))
  {
    PmBodySplits(pairs);
    PmFieldsAccepted(pairs);
    var data := Join([CMD_PM] + PmFields(pairs));
    assert Split(data)[0] == CMD_PM;
    assert Split(data)[1..] == PmFields(pairs);
  }

  /** Before a pm has configured the pins, every command but info, pm, vw and vr
      is ignored: no callback runs, nothing is sent, nothing changes. */
  lemma UnconfiguredIgnoresHardware(w: World, respond: Responder, data: Bytes)
    requires !w.pinsConfigured
    requires AllAscii(Split(data)) && !IsUngatedCommand(Split(data)[0])
    ensures HwEffect(w, respond, data) == (w, Ok(()))
  {
  }

  /** Once configured, a command the dispatcher does not know raises ValueError
      and changes nothing. */
  lemma ConfiguredUnknownRaises(w: World, respond: Responder, data: Bytes)
    requires w.pinsConfigured
    requires AllAscii(Split(data)) && !IsKnownCommand(Split(data)[0])
    ensures HwEffect(w, respond, data) == (w, Err(ValueError))
  {
  }

  /** vw without a pin raises IndexError, with a pin that is not an int raises
      ValueError, and to a pin without a write callback does nothing. */
  lemma VirtualWriteRejected(w: World, respond: Responder, data: Bytes)
    requires Command(data, CMD_VW)
    ensures |Args(data)| == 0 ==> HwEffect(w, respond, data) == (w, Err(IndexError))
    ensures |Args(data)| > 0 && ParseInt(Args(data)[0]).None? ==> HwEffect(w, respond, data) == (w, Err(ValueError))
    ensures |Args(data)| > 0 && ParseInt(Args(data)[0]).Some? && WriteHandler(w.pins, Virtual, ParseInt(Args(data)[0]).value).None? ==>
      HwEffect(w, respond, data) == (w, Ok(()))
  {
  }

  /** How many of the writes, made from log position n on, return before the
      first one that raises. */
  function WritesReturning(respond: Responder, n: nat, pin: int, h: nat, vals: seq<Bytes>): (c: nat)
    ensures c <= |vals|
    decreases |vals|
  {
    if vals == [] then 0
    else if respond(WriteCall(Virtual, pin, h, TextArg(vals[0])), n).Value? then 1 + WritesReturning(respond, n + 1, pin, h, vals[1..])
    else 0
  }

  lemma VirtualWritesIndex(pin: int, h: nat, vals: seq<Bytes>)
    ensures |VirtualWrites(pin, h, vals)| == |vals|
    ensures forall j :: 0 <= j < |vals| ==> VirtualWrites(pin, h, vals)[j] == WriteCall(Virtual, pin, h, TextArg(vals[j]))
  {
  }

  /** The write loop changes only the call log, by appending, and what it
      raises is the callback's exception. */
  lemma {:induction false} WriteEachFrame(w: World, respond: Responder, pin: int, h: nat, vals: seq<Bytes>)
    ensures var (w2, r) := WriteEach(w, respond, pin, h, vals);
      && w2 == w.(calls := w2.calls) && w.calls <= w2.calls
      && (r.Err? ==> r.exc == CallbackRaised)
    decreases |vals|
  {
    if vals != [] {
      var c := WriteCall(Virtual, pin, h, TextArg(vals[0]));
      if respond(c, |w.calls|).Value? {
        WriteEachFrame(w.(calls := w.calls + [c]), respond, pin, h, vals[1..]);
      }
    }
  }

  /** The write loop's calls: with m the writes that return, it succeeds iff
      all of them return; the log gains the first m calls, plus the one that
      raised when there is one. */
  lemma {:induction false} WriteEachCalls(w: World, respond: Responder, pin: int, h: nat, vals: seq<Bytes>)
    ensures var (w2, r) := WriteEach(w, respond, pin, h, vals);
      var m := WritesReturning(respond, |w.calls|, pin, h, vals);
      && (r.Ok? <==> m == |vals|)
      && w2.calls == w.calls + VirtualWrites(pin, h, vals[..if r.Ok? then m else m + 1])
    decreases |vals|
  {
    if vals == [] {
      assert vals[..0] == [];
    } else {
      var c := WriteCall(Virtual, pin, h, TextArg(vals[0]));
      var w1 := w.(calls := w.calls + [c]);
      if respond(c, |w.calls|).Value? {
        WriteEachCalls(w1, respond, pin, h, vals[1..]);
        var (w2, r) := WriteEach(w1, respond, pin, h, vals[1..]);
        var m := WritesReturning(respond, |w1.calls|, pin, h, vals[1..]);
        var n := if r.Ok? then m else m + 1;
        assert vals[..n + 1][1..] == vals[1..][..n];
        assert VirtualWrites(pin, h, vals[..n + 1]) == [c] + VirtualWrites(pin, h, vals[1..][..n]);
        assert w2.calls == w.calls + ([c] + VirtualWrites(pin, h, vals[1..][..n]));
      } else {
        assert vals[..1] == [vals[0]];
        assert VirtualWrites(pin, h, vals[..1]) == [c];
      }
    }
  }

  /** The write loop: with m the writes that return, it succeeds iff all of
      them return, in which case one write call per value was made, in order;
      otherwise the calls stop right after the first that raises, and the
      exception leaves. Only the call log changes. */
  lemma WriteEachSpec(w: World, respond: Responder, pin: int, h: nat, vals: seq<Bytes>)
    ensures var (w2, r) := WriteEach(w, respond, pin, h, vals);
      w2 == w.(calls := w2.calls) && w.calls <= w2.calls
    ensures var (w2, r) := WriteEach(w, respond, pin, h, vals);
      r.Ok? <==> WritesReturning(respond, |w.calls|, pin, h, vals) == |vals|
    ensures var (w2, r) := WriteEach(w, respond, pin, h, vals);
      r.Ok? ==> w2.calls == w.calls + VirtualWrites(pin, h, vals)
    ensures var (w2, r) := WriteEach(w, respond, pin, h, vals);
      var m := WritesReturning(respond, |w.calls|, pin, h, vals);
      r.Err? ==> r.exc == CallbackRaised && m < |vals| && w2.calls == w.calls + VirtualWrites(pin, h, vals[..m + 1])
  {
    WriteEachFrame(w, respond, pin, h, vals);
    WriteEachCalls(w, respond, pin, h, vals);
    assert vals[..|vals|] == vals;
  }

  /** A vw to a pin with a write callback hands the remaining fields over one
      by one, exactly as WriteEachSpec describes. */
  lemma VirtualWriteDelivers(w: World, respond: Responder, data: Bytes, pin: int, h: nat)
    requires Command(data, CMD_VW)
    requires |Args(data)| > 0 && ParseInt(Args(data)[0]) == Some(pin)
    requires WriteHandler(w.pins, Virtual, pin) == Some(h)
    ensures HwEffect(w, respond, data) == WriteEach(w, respond, pin, h, Args(data)[1..])
  {
  }

  /** A read command to a pin with a read callback: exactly one read call is
      logged, nothing is ever raised (errors while replying are swallowed),
      and only the log and the send side change. If the callback returns a
      value -- and, for a virtual pin, the session is authenticated -- one
      `<tag> pin value` HW frame is attempted under the rate cap; otherwise
      nothing is sent and no id is used. */
  lemma ReadSpec(w: World, respond: Responder, ns: Namespace, rest: seq<Bytes>, pin: int, h: nat)
    requires |rest| > 0 && ParseInt(rest[0]) == Some(pin)
    requires ReadHandler(w.pins, ns, pin) == Some(h)
    ensures var (w2, r) := ReadCmd(w, respond, ns, rest);
      var re := respond(ReadCall(ns, pin, h), |w.calls|);
      && r == Ok(())
      && w2.calls == w.calls + [ReadCall(ns, pin, h)]
      && w2 == w.(calls := w2.calls, out := w2.out)
      && (re.Value? && (ns != Virtual || w.state == Authenticated) ==>
            w2.out == EmitEffect(w.out, MSG_HW, [ReplyTag(ns), IntText(pin), re.text], false).0)
      && (!re.Value? || (ns == Virtual && w.state != Authenticated) ==> w2.out == w.out)
  {
  }

  /** A read reply that the socket accepts at once, within the cap, puts exactly
      one frame on the wire: HW with the next id and fields (tag, pin, value),
      which the server splits back into those fields and whose pin reads back
      as the same int. */
  lemma ReadReplies(w: World, respond: Responder, ns: Namespace, rest: seq<Bytes>, pin: int, h: nat)
    requires WorldValid(w)
    requires |rest| > 0 && ParseInt(rest[0]) == Some(pin)
    requires ReadHandler(w.pins, ns, pin) == Some(h)
    requires respond(ReadCall(ns, pin, h), |w.calls|).Value?
    requires ns != Virtual || w.state == Authenticated
    requires w.out.txCount < MAX_MSG_PER_SEC && NextAttempt(w.out.script) == Accepted
    requires NoNul(respond(ReadCall(ns, pin, h), |w.calls|).text)
    requires |Join([ReplyTag(ns), IntText(pin), respond(ReadCall(ns, pin, h), |w.calls|).text])| < 0x1_0000
    ensures var (w2, r) := ReadCmd(w, respond, ns, rest);
      var v := respond(ReadCall(ns, pin, h), |w.calls|).text;
      var f := Frame(MSG_HW, NextId(w.out.msgId), [ReplyTag(ns), IntText(pin), v]);
      && f.Some?
      && w2.out.wire == w.out.wire + [f.value]
      && Unpack(f.value[..HDR_LEN]) == Header(MSG_HW, NextId(w.out.msgId), |f.value| - HDR_LEN)
      && Split(f.value[HDR_LEN..]) == [ReplyTag(ns), IntText(pin), v]
      && ParseInt(Split(f.value[HDR_LEN..])[1]) == Some(pin)
  {
    var v := respond(ReadCall(ns, pin, h), |w.calls|).text;
    var args := [ReplyTag(ns), IntText(pin), v];
    EmitDelivers(w.out, MSG_HW, args, false);
    IntTextNoNul(pin);
    assert NoNul(ReplyTag(ns));
    FormatSpec(w.out, MSG_HW, args);
    ParseIntText(pin);
  }

  /** A read callback that raises NoValueToReport or fails sends nothing. */
  lemma ReadNoValueSilent(w: World, respond: Responder, ns: Namespace, rest: seq<Bytes>, pin: int, h: nat)
    requires |rest| > 0 && ParseInt(rest[0]) == Some(pin)
    requires ReadHandler(w.pins, ns, pin) == Some(h)
    requires !respond(ReadCall(ns, pin, h), |w.calls|).Value?
    ensures ReadCmd(w, respond, ns, rest) == (w.(calls := w.calls + [ReadCall(ns, pin, h)]), Ok(()))
  {
  }

  /** dw/aw with a registered write callback: one write call with the parsed
      int, whose exception propagates; without a callback nothing happens. The
      value is parsed (and may raise) before the registry is consulted. */
  lemma HwWriteSpec(w: World, respond: Responder, ns: Namespace, rest: seq<Bytes>)
    requires |rest| >= 2 && ParseInt(rest[0]).Some? && ParseInt(rest[1]).Some?
    ensures var (w2, r) := HwWriteCmd(w, respond, ns, rest);
      var pin := ParseInt(rest[0]).value;
      var val := ParseInt(rest[1]).value;
      && (WriteHandler(w.pins, ns, pin).None? ==> w2 == w && r == Ok(()))
      && (WriteHandler(w.pins, ns, pin).Some? ==>
            var c := WriteCall(ns, pin, WriteHandler(w.pins, ns, pin).value, IntArg(val));
            && w2 == w.(calls := w.calls + [c])
            && (r.Ok? <==> respond(c, |w.calls|).Value?)
            && (r.Err? ==> r.exc == CallbackRaised))
  {
  }

  /** dw/aw parse both fields before looking at the registry: a missing or
      non-int value raises even for an unregistered pin. */
  lemma HwWriteParsesFirst(w: World, respond: Responder, ns: Namespace, rest: seq<Bytes>)
    requires |rest| >= 1 && ParseInt(rest[0]).Some?
    ensures |rest| == 1 ==> HwWriteCmd(w, respond, ns, rest) == (w, Err(IndexError))
    ensures |rest| >= 2 && ParseInt(rest[1]).None? ==> HwWriteCmd(w, respond, ns, rest) == (w, Err(ValueError))
  {
  }

  /** What a dispatch step may change: the configured flag (only ever to
      true), the call log (only by appending) and the send side; the session
      invariant holds after it. */
  predicate DispatchKeeps(w: World, w2: World) {
    && w2 == w.(pinsConfigured := w2.pinsConfigured, calls := w2.calls, out := w2.out)
    && (w.pinsConfigured ==> w2.pinsConfigured)
    && w.calls <= w2.calls
    && WorldValid(w2)
  }

  /** vw keeps to the dispatcher's frame. */
  lemma VirtualWriteFrame(w: World, respond: Responder, rest: seq<Bytes>)
    requires WorldValid(w)
    ensures DispatchKeeps(w, VirtualWriteCmd(w, respond, rest).0)
  {
    if |rest| > 0 && ParseInt(rest[0]).Some? {
      var pin := ParseInt(rest[0]).value;
      if WriteHandler(w.pins, Virtual, pin).Some? {
        WriteEachFrame(w, respond, pin, WriteHandler(w.pins, Virtual, pin).value, rest[1..]);
      }
    }
  }

  /** dw and aw keep to the dispatcher's frame. */
  lemma HwWriteFrame(w: World, respond: Responder, ns: Namespace, rest: seq<Bytes>)
    requires WorldValid(w)
    ensures DispatchKeeps(w, HwWriteCmd(w, respond, ns, rest).0)
  {
  }

  /** vr, dr and ar keep to the dispatcher's frame. */
  lemma ReadCmdFrame(w: World, respond: Responder, ns: Namespace, rest: seq<Bytes>)
    requires WorldValid(w)
    ensures DispatchKeeps(w, ReadCmd(w, respond, ns, rest).0)
  {
    if |rest| > 0 && ParseInt(rest[0]).Some? {
      var pin := ParseInt(rest[0]).value;
      if ReadHandler(w.pins, ns, pin).Some? {
        ReadFrame(w, respond, ns, rest, pin, ReadHandler(w.pins, ns, pin).value);
      }
    }
  }

  /** The dispatcher changes only the configured flag (only ever to true), the
      call log (only by appending) and the send side; it keeps the session
      invariant. */
  lemma HwFrame(w: World, respond: Responder, data: Bytes)
    requires WorldValid(w)
    ensures DispatchKeeps(w, HwEffect(w, respond, data).0)
  {
    var params := Split(data);
    if AllAscii(params) {
      DispatchFrame(w, respond, params[0], params[1..]);
    }
  }

  lemma DispatchFrame(w: World, respond: Responder, cmd: Bytes, rest: seq<Bytes>)
    requires WorldValid(w)
    ensures DispatchKeeps(w, Dispatch(w, respond, cmd, rest).0)
  {
    if cmd == CMD_INFO {
    } else if cmd == CMD_PM {
    } else if cmd == CMD_VW {
      VirtualWriteFrame(w, respond, rest);
    } else if cmd == CMD_VR {
      ReadCmdFrame(w, respond, Virtual, rest);
    } else if !w.pinsConfigured {
    } else if cmd == CMD_DW {
      HwWriteFrame(w, respond, Digital, rest);
    } else if cmd == CMD_AW {
      HwWriteFrame(w, respond, Analog, rest);
    } else if cmd == CMD_DR {
      ReadCmdFrame(w, respond, Digital, rest);
    } else if cmd == CMD_AR {
      ReadCmdFrame(w, respond, Analog, rest);
    }
  }

  lemma ReadFrame(w: World, respond: Responder, ns: Namespace, rest: seq<Bytes>, pin: int, h: nat)
    requires WorldValid(w)
    requires |rest| > 0 && ParseInt(rest[0]) == Some(pin)
    requires ReadHandler(w.pins, ns, pin) == Some(h)
    ensures var (w2, r) := ReadCmd(w, respond, ns, rest);
      w2 == w.(calls := w2.calls, out := w2.out) && w.calls <= w2.calls && WorldValid(w2)
  {
    ReadSpec(w, respond, ns, rest, pin, h);
    var re := respond(ReadCall(ns, pin, h), |w.calls|);
    if re.Value? {
      EmitAtMostOne(w.out, MSG_HW, [ReplyTag(ns), IntText(pin), re.text], false);
    }
  }
}
