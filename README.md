# Blynk client session engine, modelled in Dafny

This project models the session engine of the Blynk client library
(`BlynkLib.py`) as it runs under Python 2, where `str` is a byte string, and
proves properties of it:

- the wire format: a 5-byte big-endian `!BHH` header with the body's text
  fields joined by NUL bytes, and `int()` of a received field as CPython 2
  reads it (whitespace around the number and between its sign and its digits);
- the message-id counter, which wraps from 65535 back to 1;
- the receive reassembly buffer `_rx_data`;
- `_send`, with its cap of 20 frames a second and its bounded retry on EAGAIN;
- the once-a-second liveness and heartbeat step;
- the connect, login and authentication passes, and the steady-state frame loop of `_run`;
- the hardware sub-command dispatcher `_handle_hw`, the three pin registries,
  the outbound senders (`notify`, `tweet`, `email`, `virtual_write`, `sync_*`)
  and the user-task clamp and gate.

Module layout:

- `Wire`: bytes, the header, the body and the decimal text of ints.
- `Types`: constants, states, exceptions, callback calls, and the `World` snapshot.
- `MsgIds`: the id counter.
- `Transmit`: `_send` and `_format_msg`.
- `Reassembly`: `_recv`.
- `Liveness`: `_server_alive`.
- `Facade`: the outbound senders.
- `Dispatch`: `_handle_hw`.
- `Registry`: the pin registries and `UserTask`.
- `Session`: the passes of `_run`.

Each of these states an operation as a function from a `World` value to a new
`World` and an outcome (`Ok`, or `Err` carrying the Python exception). The
properties are lemmas about those functions.

`Client.Blynk` is the library's `Blynk` class. It has the same fields and
updates them in place. Each of its methods is proved to change the object,
its connection and its user code exactly as the matching function says:
`(W(), r) == Effect(old(W()), ...)`, where `W()` is the object's state as a
`World`. Its loops carry the invariants that make this hold:

- the retry loop of `_send`;
- the `pm` pair loop;
- the `vw` value loop;
- the task-start loop;
- the passes of `_run`.

The environment consists of objects in module `Environment`:

- `Transport` is the socket. It holds scripted outcomes for connects, for
  recv calls (byte chunks, timeouts, errors) and for send attempts (accepted,
  EAGAIN or another errno), and it keeps the list of buffers sent.
- `UserCode` stands for the callbacks. Each one is a number, and a
  `Responder` function says how the call at each log position reacts:
  `Value(text)`, `NoValue` (the `NoValueToReport` exception) or `Failure`
  (any other exception). `UserCode` keeps the log of calls made.

Inputs are parameters:

- the clock reading of `_server_alive`, `c_time`;
- the clock readings of `_run`'s passes. `Client.Blynk.Run` is `_run` with
  one pass per reading.

Where the code and the library's stated intent differ, the model follows the code:

- `data.split(b'\0')` of an empty body is `['']`, not an empty list (`Wire.Split`).
- A write callback (`vw`, `dw`, `aw`) that raises, and the `ValueError`s of
  `_handle_hw` (a bad int, an unknown pin mode, an unknown command), are not
  caught. They propagate out of `_run` without closing the connection. Only
  read callbacks are guarded, and the errors of sending their reply are
  swallowed with them.
- A task handler that raises leaves `run_task` before the timer is started,
  so that task is not repeated (`Registry.TaskEffect`).
- An unknown sub-command raises only after a `pm` has set `_pins_configured`.
  Before that it is ignored, like `dw`, `aw`, `dr` and `ar`.
- `_pins_configured`, `_msg_id` and `_rx_data` are reset only at the start of
  `_run`, never on reconnect.
- Hardware pins may be any int, negative ones included.

Proving the natural contracts brought out some behaviours of the code as
written. The model keeps them and states them as lemmas:

- Bytes left in `_rx_data` from the previous connection are handed out as the
  auth reply, so a stale success reply authenticates
  (`Session.StaleReplyAuthenticates`).
- A HW frame whose body has not fully arrived loses its header, and the
  buffered body is later read as a header (`Session.IncomingBodyLate`).
- The login frame counts toward the cap of 20, and the counter is not reset
  while connecting, so the HW_INFO announcement can be dropped
  (`Session.InfoFrameCapped`).
- The auth decision ignores the reply's message type (`Session.AuthIgnoresType`).

## Model

| member | source | states |
|---|---|---|
| Types.StateCode | BlynkLib.py:130-133 | DISCONNECTED is 0, CONNECTING 1, AUTHENTICATING 2 and AUTHENTICATED 3, each code belonging to exactly one state |
| Types.StateCodeComparisons | BlynkLib.py:183 | the library's integer tests `state == AUTHENTICATED` (:183, :394, :406-426) and `state != AUTHENTICATED` (:530) hold exactly when the model's `ConnState` tests do, and equal codes mean equal states |
| Types.Close | BlynkLib.py:380-382 | `_close` closes the connection and the state becomes DISCONNECTED |
| Wire.Pack | BlynkLib.py:243 | struct.pack succeeds exactly when type fits 8 bits and id and length fit 16 bits, and then gives 5 bytes |
| Wire.Unpack | BlynkLib.py:575 | every 5-byte header unpacks to fields in range |
| Wire.UnpackPack | BlynkLib.py:98-99 | unpacking a packed header gives back type, id and length |
| Wire.PackUnpack | BlynkLib.py:556 | every 5 bytes are the packing of the header they unpack to |
| Wire.PackBigEndian | BlynkLib.py:98-99 | the header is type, then id high and low byte, then length high and low byte |
| Wire.Split | BlynkLib.py:246 | split on NUL gives at least one field, and no field contains NUL |
| Wire.Join | BlynkLib.py:242 | `'\0'.join`: one NUL between each two fields and none at the ends; Wire.JoinSplit and Wire.SplitJoin prove it inverse to Wire.Split |
| Wire.JoinLength | BlynkLib.py:242 | the joined body is the fields' bytes plus one NUL between each two |
| Wire.JoinSplit | BlynkLib.py:246 | joining the fields of any body with NUL restores the body |
| Wire.SplitJoin | BlynkLib.py:242 | splitting a joined body gives back the fields when none contains NUL |
| Wire.SplitJoinByte | BlynkLib.py:241-245 | a non-NUL byte in front of a joined body goes back to the front of the first field after splitting |
| Wire.Digits | BlynkLib.py:242 | str of a natural number is a non-empty string of decimal digits |
| Wire.IntText | BlynkLib.py:242 | str of an int is non-empty |
| Wire.Strip | BlynkLib.py:254 | the stripped text is never longer, and when non-empty it neither starts nor ends with whitespace |
| Wire.StripSpec | BlynkLib.py:254 | the stripped text is the original with only whitespace removed before it and after it |
| Wire.LeadingSpaces | BlynkLib.py:254 | the count of leading whitespace bytes: all of them are whitespace, and the byte after them is not |
| Wire.ParseInt | BlynkLib.py:254 | text `int()` accepts ends in a digit once stripped, and only a leading '-' makes the value negative |
| Wire.DigitsValueOfDigits | BlynkLib.py:254 | the digits str writes for a natural number read back as that number |
| Wire.ParseIntText | BlynkLib.py:254 | int(str(i)) == i for every int, negative ones included |
| Wire.ParseDigits | BlynkLib.py:254 | the decimal digits of a natural number read back as that number |
| Wire.ParseNegative | BlynkLib.py:254 | a '-' followed by the digits of n reads back as -n |
| Wire.ParseSignedDigits | BlynkLib.py:281-282 | a '-' or '+', then any whitespace, then the digits of n read as -n or n, as CPython 2 skips whitespace after the sign |
| Wire.ParseSignedText | BlynkLib.py:254 | a sign, whitespace and a digit string read as the signed value of the digits |
| Wire.LeadingSpacesPrefix | BlynkLib.py:254 | the whitespace skipped after a sign is exactly the padding in front of the digits |
| Wire.IntTextNoNul | BlynkLib.py:242 | decimal text never contains NUL, so a number is always one body field |
| Wire.FrameRoundTrip | BlynkLib.py:241-243 | a frame is 5 header bytes that unpack to (type, id, body length), then the body, which splits back into the args |
| Wire.FrameDefined | BlynkLib.py:243 | a frame can be built exactly when the body is shorter than 65536 bytes |
| MsgIds.NextId | BlynkLib.py:336-340 | the id after m is m + 1, or 1 once that would pass 65535; MsgIds.NextIdRange bounds it |
| MsgIds.NextIdRange | BlynkLib.py:336-340 | every issued id is in 1..65535; it is the previous id plus one, except that 65535 is followed by 1 |
| MsgIds.FirstIssuedId | BlynkLib.py:518 | with the counter seeded to 1 the first issued id is 2 |
| MsgIds.IdAfterCyclic | BlynkLib.py:336-340 | after n issues the counter is m + n taken cyclically in 1..65535 |
| MsgIds.IdsDistinctWithinPeriod | BlynkLib.py:336-340 | ids issued within 65535 issues are pairwise distinct, and an id recurs after exactly 65535 |
| Transmit.SendEffect | BlynkLib.py:365-378 | `_send`: at the cap and without bypass nothing happens, otherwise the retry loop runs; Transmit.SendSpec, SendCapped and SendGivesUp state its effect |
| Transmit.RetryLoopSpec | BlynkLib.py:367-378 | the loop makes at most the remaining budget of attempts, retries only on EAGAIN, sends the data and counts it once on acceptance, raises another errno, and sends nothing when the budget is spent |
| Transmit.AttemptsShape | BlynkLib.py:367-378 | the attempts made are at most the budget, all but the last failed with EAGAIN, and fewer than the budget only when the last was not EAGAIN |
| Transmit.RetryLoopResult | BlynkLib.py:367-378 | the loop's result is decided by its last attempt: accepted sends and counts the data once, another errno is raised, EAGAIN or no attempt sends nothing; the attempts made are consumed |
| Transmit.SendCapped | BlynkLib.py:366 | with 20 or more frames this second and no bypass, `_send` changes nothing |
| Transmit.SendSpec | BlynkLib.py:365-378 | at most 4 attempts; the counter goes up by exactly one when the data went out and is unchanged otherwise; only the counter, the script and the wire change |
| Transmit.SendGivesUp | BlynkLib.py:368-378 | four EAGAINs in a row: nothing is sent, nothing is raised, the counter is unchanged |
| Transmit.FormatEffect | BlynkLib.py:241-243 | `_format_msg`: the next id is taken first, then the frame is built, or struct.error when the body is too long; Transmit.FormatSpec states it |
| Transmit.EmitEffect | BlynkLib.py:407 | `_send(_format_msg(...))`: a struct.error leaves before anything is sent; Transmit.EmitAtMostOne and EmitDelivers state its effect |
| Transmit.FormatSpec | BlynkLib.py:241-243 | `_format_msg` uses up the next id even when struct.pack fails, and yields the frame for that id exactly when the body fits |
| Transmit.EmitAtMostOne | BlynkLib.py:407 | a format-and-send uses up one id and puts at most one frame on the wire, the one for that id |
| Transmit.EmitDelivers | BlynkLib.py:407 | within the cap and with the first attempt accepted, exactly that frame goes out |
| Reassembly.RecvEffect | BlynkLib.py:358-363 | `_recv(length)` returns either nothing or exactly `length` bytes |
| Reassembly.DeliverSpec | BlynkLib.py:350 | recv(n) takes at most n bytes, and they are the front of what the socket has queued |
| Reassembly.RecvSpec | BlynkLib.py:347-363 | a returned block is the first `length` bytes of old buffer plus received bytes, and the buffer keeps the rest; an empty return keeps everything buffered; the errors leave the buffer as it was |
| Reassembly.RecvConserves | BlynkLib.py:350-363 | no byte is lost or invented: the returned block followed by everything still pending is everything that was pending |
| Reassembly.RecvInOrder | BlynkLib.py:358-361 | a returned block is the front of what was pending, whatever the chunking |
| Liveness.AliveEffect | BlynkLib.py:387-398 | `_server_alive` for a clock reading: same second, nothing; new second, reset the counter, report a dead server, or send a due PING; the Liveness lemmas below state each case |
| Liveness.AliveSameSecond | BlynkLib.py:389 | within the same second `_server_alive` changes nothing and returns True |
| Liveness.AliveDeadIff | BlynkLib.py:392-393 | it returns False exactly when the second is new, a heartbeat is outstanding and 5 or more seconds have passed |
| Liveness.AliveNewSecond | BlynkLib.py:389-391 | on a new second the second is recorded, the counter restarts (at most 1 afterwards, for the ping), and only the clock fields and the send side change |
| Liveness.AlivePings | BlynkLib.py:394-397 | when due, the time and a fresh nonzero id are recorded, and a zero-length PING with that id is the only frame that may go out, past the cap |
| Liveness.AliveQuiet | BlynkLib.py:394 | when no heartbeat is due and the server is not dead, the heartbeat fields, the id counter and the wire are unchanged |
| Liveness.AlivePreservesValid | BlynkLib.py:387-398 | the step keeps the session invariant: id counter and heartbeat id in range, counter non-negative, virtual pins in 0..127 |
| Facade.FacadeEffect | BlynkLib.py:405-427 | a sender: only when AUTHENTICATED, format its frame and send it under the cap; Facade.FacadeGated and FacadeSends state both cases |
| Facade.FacadeGated | BlynkLib.py:405-427 | outside AUTHENTICATED a sender changes nothing and uses no id |
| Facade.FacadeSends | BlynkLib.py:405-427 | when authenticated, a sender uses up one id, changes only the send side and puts at most its own frame on the wire; at the cap nothing is sent; struct.error on too long a body, otherwise only a socket error |
| Facade.VirtualWriteFrameDecodes | BlynkLib.py:417-419 | the virtual_write frame splits back into ("vw", pin, value), and the pin reads back as the same int |
| Dispatch.HwEffect | BlynkLib.py:245-334 | `_handle_hw`: split on NUL, decode as ASCII, pop the command and run its branch; Dispatch.HwFrame and the Dispatch lemmas below state its effect |
| Dispatch.HwRejectsNonAscii | BlynkLib.py:246 | a body with a byte of 0x80 or above raises UnicodeError before anything changes |
| Dispatch.HwInfoIgnored | BlynkLib.py:249-250 | `info` changes nothing |
| Dispatch.PinModeSpec | BlynkLib.py:251-258 | `pm` succeeds exactly when every complete pair has an int pin and a mode in {in, out, pu, pd}; success sets only the configured flag, failure raises ValueError and changes nothing |
| Dispatch.PinModeIgnoresUnpaired | BlynkLib.py:252 | an unpaired last field does not affect `pm` |
| Dispatch.PmFieldsClean | BlynkLib.py:246 | the fields of a pm list with valid modes are ASCII and free of NUL |
| Dispatch.PmFieldsAccepted | BlynkLib.py:252-256 | every pair of a pm list with valid modes is accepted |
| Dispatch.PmBodySplits | BlynkLib.py:246 | a pm body splits back into "pm" and its fields |
| Dispatch.PinModeBuilt | BlynkLib.py:251-258 | the body of any pm list with valid modes configures the pins and changes nothing else |
| Dispatch.UnconfiguredIgnoresHardware | BlynkLib.py:279 | before the pins are configured, every command but info, pm, vw and vr changes nothing |
| Dispatch.ConfiguredUnknownRaises | BlynkLib.py:333-334 | once configured, an unknown command raises ValueError and changes nothing |
| Dispatch.VirtualWriteRejected | BlynkLib.py:259-265 | vw without a pin raises IndexError, with a non-int pin raises ValueError, and to a pin without write callback changes nothing |
| Dispatch.WritesReturning | BlynkLib.py:262-263 | at most one write per value returns before the first that raises |
| Dispatch.VirtualWritesIndex | BlynkLib.py:262-263 | the write calls are one per remaining field, in order |
| Dispatch.WriteEachSpec | BlynkLib.py:262-263 | the loop succeeds exactly when every write returns, having made one call per value in order; otherwise the calls stop right after the first that raises and the exception leaves; only the call log changes |
| Dispatch.WriteEachFrame | BlynkLib.py:262-263 | the write loop changes only the call log, by appending, and what it raises is a callback's exception |
| Dispatch.WriteEachCalls | BlynkLib.py:262-263 | with m the writes that return, the loop succeeds iff m is the number of values; the log gains the first m write calls in order, plus the raising one when there is one |
| Dispatch.VirtualWriteDelivers | BlynkLib.py:259-263 | vw to a registered write callback hands the remaining fields to it one by one |
| Dispatch.ReadSpec | BlynkLib.py:266-278 | a read to a registered read callback logs one call and never raises; a value is replied to once, as a vw/dw/aw frame; NoValue or Failure sends nothing; only the log and the send side change |
| Dispatch.ReadReplies | BlynkLib.py:302-332 | when the reply goes out it is exactly one HW frame (tag, pin, value) with the next id, which splits back into those fields |
| Dispatch.ReadNoValueSilent | BlynkLib.py:309-312 | NoValueToReport or any other exception from a read callback sends nothing and uses no id |
| Dispatch.HwWriteSpec | BlynkLib.py:280-300 | dw/aw call a registered write callback once with the parsed int and propagate its exception; with no callback nothing happens |
| Dispatch.HwWriteParsesFirst | BlynkLib.py:281-283 | dw/aw parse both ints before looking up the pin, so a missing or non-int value raises even for an unregistered pin |
| Dispatch.HwFrame | BlynkLib.py:245-334 | `_handle_hw` changes only the configured flag (only to true), the call log (only by appending) and the send side, and keeps the session invariant |
| Dispatch.DispatchFrame | BlynkLib.py:248-334 | every branch of the command chain keeps to the same frame: configured flag only set, call log only appended, otherwise only the send side changes, invariant kept |
| Dispatch.VirtualWriteFrame | BlynkLib.py:259-265 | vw keeps to the dispatcher's frame |
| Dispatch.HwWriteFrame | BlynkLib.py:280-300 | dw and aw keep to the dispatcher's frame |
| Dispatch.ReadCmdFrame | BlynkLib.py:266-332 | vr, dr and ar keep to the dispatcher's frame and the session invariant |
| Dispatch.ReadFrame | BlynkLib.py:266-278 | a read changes only the log (by appending) and the send side, and keeps the session invariant |
| Registry.Register | BlynkLib.py:429-469 | the three registration methods: a virtual pin must be in 0..127, then the pin's entry is set; Registry.RegisterVirtualIff and RegisterOverwritesOnly state it |
| Registry.RegisterVirtualIff | BlynkLib.py:429-433 | add_virtual_pin succeeds exactly for 0 <= pin < 128; on failure it raises ValueError and no registry changes |
| Registry.RegisterVirtualBounds | BlynkLib.py:430 | 127 is accepted; 128 and -1 are rejected |
| Registry.RegisterHwAlways | BlynkLib.py:448-449 | the digital and analog registries accept every int |
| Registry.RegisterOverwritesOnly | BlynkLib.py:429-469 | registering sets that pin's callbacks and leaves every other pin, and the other namespaces, as they were |
| Registry.RegisterKeepsVirtualRange | BlynkLib.py:430-431 | registration keeps every virtual pin within 0..127 |
| Registry.TaskPeriodClamp | BlynkLib.py:175 | a positive period is kept and any other becomes 1 |
| Registry.TaskEffect | BlynkLib.py:182-184 | `run_task`: call the handler when the gate is open, report its exception; Registry.TaskGated and TaskRuns state both cases |
| Registry.TaskGated | BlynkLib.py:183 | a task without handler, or an authenticated-only one outside AUTHENTICATED, changes nothing |
| Registry.TaskRuns | BlynkLib.py:183-184 | with the gate open the handler is called once and only the log changes |
| Registry.StartTasks | BlynkLib.py:526-527 | run every task once in order, stopping at the first that raises; Registry.StartTasksSpec states it |
| Registry.StartTasksSpec | BlynkLib.py:526-527 | starting the tasks only appends to the log; without exceptions it appends exactly the calls of the tasks whose gate is open, in order |
| Session.RunPrologueSpec | BlynkLib.py:515-527 | `_run` starts with an empty buffer, id counter 1, counter 0, pins unconfigured, second 0; state and registries carry over |
| Session.HwInfoArgsClean | BlynkLib.py:562 | the HW_INFO fields carry the heartbeat period as "10", are NUL-free and fit a frame |
| Session.ConnectStep | BlynkLib.py:530-567 | a pass of the connect loop: connect, login, read the auth reply, then authenticate or close; Session.ConnectStepSpec and the lemmas below state each branch |
| Session.ConnectIdle | BlynkLib.py:566-567 | with no connection wanted, a pass changes nothing |
| Session.ConnectFails | BlynkLib.py:543-545 | a failed connect closes: DISCONNECTED, transport closed, one attempt used, nothing sent |
| Session.LoginSends | BlynkLib.py:547-550 | login is header (LOGIN, next id, token length) then the token, sent past the cap |
| Session.AuthDecision | BlynkLib.py:551-561 | no reply closes without raising; a reply authenticates exactly when status is 200 and id is nonzero, and closes otherwise |
| Session.AuthIgnoresType | BlynkLib.py:556-557 | the reply's message type plays no part in the decision |
| Session.AuthenticatedAnnounces | BlynkLib.py:561-565 | after acceptance the HW_INFO frame (h-beat 10 dev WiPy cpu CC3200) goes out and the on-connect callback runs once |
| Session.InfoFrameCapped | BlynkLib.py:550-562 | at the cap, the HW_INFO frame is dropped and at most the login frame goes out |
| Session.StaleReplyAuthenticates | BlynkLib.py:517-561 | five buffered bytes from before are taken as the auth reply, and a stale success authenticates |
| Session.ConnectStepSpec | BlynkLib.py:530-565 | a pass ends DISCONNECTED or AUTHENTICATED unless it raises, keeps registries and configuration, and keeps the session invariant |
| Session.AuthenticatedFrame | BlynkLib.py:561-565 | the authenticated branch keeps the invariant and only appends to the log |
| Session.IncomingEffect | BlynkLib.py:573-591 | one inbound frame: by message type, settle a heartbeat, answer a PING, dispatch a HW body, or close; Session.IncomingSpec and the lemmas below state each branch |
| Session.IncomingIdle | BlynkLib.py:573-574 | with no complete header only the receive side moves |
| Session.IncomingZeroIdCloses | BlynkLib.py:576-578 | a header with id 0 closes the session |
| Session.IncomingRsp | BlynkLib.py:579-581 | RSP clears the outstanding heartbeat exactly when its id matches; nothing else changes |
| Session.IncomingPingAnswered | BlynkLib.py:582-583 | PING is answered with (RSP, same id, 200), past the cap |
| Session.IncomingHwDispatched | BlynkLib.py:584-587 | a HW or BRIDGE frame whose body arrived goes to `_handle_hw`, whose exceptions leave the loop |
| Session.IncomingBodyLate | BlynkLib.py:585-586 | a late body is not dispatched: the header is consumed and the partial body stays buffered |
| Session.IncomingUnknownCloses | BlynkLib.py:588-590 | any other message type closes the session |
| Session.SteadyStep | BlynkLib.py:572-595 | a steady pass: one inbound frame, then the liveness step, closing on a dead server; Session.SteadyStepSpec states it |
| Session.SteadyStepSpec | BlynkLib.py:572-595 | a steady pass keeps the invariant; breaking off leaves the session DISCONNECTED and closed, going on leaves the state as it was |
| Session.IncomingSpec | BlynkLib.py:573-590 | a frame keeps the invariant, the registries and the state unless it closes |
| Session.SteadyQuiet | BlynkLib.py:573-593 | a quiet pass in the same second changes only the receive side |
| Session.SteadyDeadCloses | BlynkLib.py:593-595 | an overdue heartbeat closes the session |
| Session.RunPassSpec | BlynkLib.py:529-600 | a pass keeps the run invariant and the registries and only appends to the log |
| Session.RunPasses | BlynkLib.py:529-600 | `_run`'s passes, one per clock reading, ended by the first exception; Session.RunPassesSpec states what they keep |
| Session.RunPassesSpec | BlynkLib.py:529-600 | over any number of passes: ids in range, virtual pins in 0..127, authenticated implies open, steady loop only when authenticated, registries unchanged, log only appended |
| Environment.Transport.constructor | BlynkLib.py:541 | a fresh socket with its scripts, closed, nothing sent |
| Environment.Transport.Connect | BlynkLib.py:542 | conn.connect takes the next scripted outcome and opens the connection exactly on success |
| Environment.Transport.Recv | BlynkLib.py:350 | conn.recv(n) takes the next scripted event, at most n bytes |
| Environment.Transport.SendAttempt | BlynkLib.py:370 | conn.send takes the next scripted outcome; the buffer goes on the wire exactly when accepted |
| Environment.Transport.Close | BlynkLib.py:381 | conn.close closes the connection and changes nothing else |
| Environment.UserCode.constructor | BlynkLib.py:263 | callbacks with the given reactions and an empty log |
| Environment.UserCode.Call | BlynkLib.py:263 | a callback reacts as scripted for its log position, and the call is logged |
| Client.Blynk.constructor | BlynkLib.py:218-238 | port 8441 with SSL, 8442 without, unless given; DISCONNECTED, empty registries, no tasks, no on-connect callback |
| Client.Blynk.NewMsgId | BlynkLib.py:336-340 | `_new_msg_id` updates only `_msg_id`, as `MsgIds.NextId` |
| Client.Blynk.FormatMsg | BlynkLib.py:241-243 | `_format_msg` as `Transmit.FormatEffect` |
| Client.Blynk.Recv | BlynkLib.py:347-363 | `_recv` as `Reassembly.RecvEffect`, changing only the buffer and the socket |
| Client.Blynk.Send | BlynkLib.py:365-378 | `_send`: dropped when the cap is reached and not bypassed, otherwise the retry loop, as `Transmit.SendEffect` |
| Client.Blynk.RetrySend | BlynkLib.py:367-378 | the retry loop itself as `Transmit.RetryLoop`; the connection's other state is untouched |
| Client.Blynk.Emit | BlynkLib.py:407 | `_send(_format_msg(...))` as `Transmit.EmitEffect` |
| Client.Blynk.CloseConn | BlynkLib.py:380-382 | `_close` as `Types.Close` |
| Client.Blynk.ServerAlive | BlynkLib.py:387-398 | `_server_alive` as `Liveness.AliveEffect` |
| Client.Blynk.SendHeartbeat | BlynkLib.py:395-397 | the PING branch as `Liveness.Heartbeat` |
| Client.Blynk.Post | BlynkLib.py:405-427 | a gated sender as `Facade.FacadeEffect` |
| Client.Blynk.Notify | BlynkLib.py:405-407 | `notify` as `Facade.FacadeEffect` |
| Client.Blynk.Tweet | BlynkLib.py:409-411 | `tweet` as `Facade.FacadeEffect` |
| Client.Blynk.Email | BlynkLib.py:413-415 | `email` as `Facade.FacadeEffect` |
| Client.Blynk.VirtualWrite | BlynkLib.py:417-419 | `virtual_write` as `Facade.FacadeEffect` |
| Client.Blynk.SyncAll | BlynkLib.py:421-423 | `sync_all` as `Facade.FacadeEffect` |
| Client.Blynk.SyncVirtual | BlynkLib.py:425-427 | `sync_virtual` as `Facade.FacadeEffect` |
| Client.Blynk.AddVirtualPin | BlynkLib.py:429-433 | `add_virtual_pin` as `Registry.Register`, changing only the registries |
| Client.Blynk.AddDigitalHwPin | BlynkLib.py:448-451 | `add_digital_hw_pin` as `Registry.Register` |
| Client.Blynk.AddAnalogHwPin | BlynkLib.py:466-469 | `add_analog_hw_pin` as `Registry.Register` |
| Client.Blynk.OnConnect | BlynkLib.py:472-473 | `on_connect` sets only the callback |
| Client.Blynk.AddUserTask | BlynkLib.py:475-489 | `add_user_task` appends the clamped task and changes nothing else |
| Client.Blynk.Connect | BlynkLib.py:491-492 | `connect` sets only `_do_connect` |
| Client.Blynk.Disconnect | BlynkLib.py:494-495 | `disconnect` clears only `_do_connect` |
| Client.Blynk.RunTask | BlynkLib.py:182-184 | `run_task` as `Registry.TaskEffect` |
| Client.Blynk.HandleHw | BlynkLib.py:245-334 | `_handle_hw` as `Dispatch.HwEffect` |
| Client.Blynk.HandlePinMode | BlynkLib.py:251-258 | the pm pair loop as `Dispatch.PinModeEffect` |
| Client.Blynk.HandleVirtualWrite | BlynkLib.py:259-265 | the vw branch and its loop as `Dispatch.VirtualWriteCmd` |
| Client.Blynk.HandleHwWrite | BlynkLib.py:280-300 | the dw/aw branches as `Dispatch.HwWriteCmd` |
| Client.Blynk.HandleRead | BlynkLib.py:266-278 | the vr/dr/ar branches as `Dispatch.ReadCmd` |
| Client.Blynk.RunPrologue | BlynkLib.py:515-527 | the start of `_run` and the task loop as `Session.RunPrologueEffect` |
| Client.Blynk.ResetRun | BlynkLib.py:515-522 | the field resets at the start of `_run` as `Session.RunReset` |
| Client.Blynk.StartUserTasks | BlynkLib.py:524-527 | every user task run once in registration order as `Registry.StartTasks` |
| Client.Blynk.ConnectPass | BlynkLib.py:530-567 | a pass of the connect loop as `Session.ConnectStep` |
| Client.Blynk.Login | BlynkLib.py:547-550 | the LOGIN frame, sent regardless of the cap, as `Session.LoginEffect` |
| Client.Blynk.Announce | BlynkLib.py:561-565 | entering AUTHENTICATED, the HW_INFO frame and the on-connect callback as `Session.AuthenticatedEffect` |
| Client.Blynk.EnterSteady | BlynkLib.py:569-571 | the steady reset as `Session.SteadyReset` |
| Client.Blynk.Incoming | BlynkLib.py:573-592 | one inbound frame as `Session.IncomingEffect` |
| Client.Blynk.SteadyPass | BlynkLib.py:572-595 | a pass of the steady loop as `Session.SteadyStep` |
| Client.Blynk.Run | BlynkLib.py:510-600 | `_run`, one pass per clock reading, as `Session.RunPasses` after the prologue, keeping the session invariant |
| Client.Blynk.Pass | BlynkLib.py:529-600 | one pass of `_run`'s outer loop, connecting or handling one reading, as `Session.RunPass` |

## Left out

- Socket creation, DNS lookup and SSL wrapping (BlynkLib.py:534-542) are transport I/O. A connect is one scripted attempt on the single `Transport` object, which is reused for every connection instead of a new socket object each time.
- `_settimeout` and the timeouts given to `_recv` are not modelled. A recv either delivers a scripted chunk, times out or fails.
- The sleeps are not modelled, because time is an input here: `sleep_from_until`, the sleep in `_close`, and `time.sleep_ms` in `_send`.
- Transmit.RetryLoop: `time.sleep_ms` (BlynkLib.py:377) exists only on MicroPython, and the model treats it as a pure delay. On CPython 2 the first EAGAIN raises AttributeError there, so Transmit.RetryLoop, Transmit.SendGivesUp and Transmit.AttemptsShape describe the retry as MicroPython runs it.
- Python 3 is not modelled, although the library says it works with Python 2 and 3 (BlynkLib.py:7). Under Python 3, `bytes` of a `str` at BlynkLib.py:242 raises TypeError, so every `_format_msg` fails.
- `now_in_ms` and `int(time.time())` are not modelled. Clock readings are parameters.
- The `threading.Timer` rescheduling of user tasks and its concurrency with the session loop are not modelled. The model keeps the clamp and the gate, and it runs each task once at the start of `_run`.
- `Terminal` and `repl` use `eval`/`exec` of received text.
- Logging calls are not modelled.
- The outer `run` loop is not modelled, because it catches everything and only restarts `_run`.
- `Client.Blynk.Run` makes one pass per given clock reading, whereas `_run` never returns unless an exception is raised.
- OmegaGPIOHelper.py (hardware I/O), OmegaBlynkTest.py and GenericBlynkTest.py (demo scripts) are not part of this model.
- Environment.Transport.SendAttempt: a send transmits the whole buffer or fails. The library ignores the byte count that `socket.send` returns, and partial sends are not modelled.
- Environment.UserCode.Call: a callback cannot call back into the library (for example `virtual_write` from inside a write handler). A callback also cannot change the registries, and it cannot change `_do_connect`.
- The per-pin and per-task state dictionaries and the `blynk_ref` argument are not modelled. Callbacks are identified by number.
- Pins are Dafny ints, so the `isinstance(pin, int)` rejections (BlynkLib.py:430, 448, 466) never occur.
- Client.Blynk.constructor: the token is taken as bytes, and the constructor never raises. Under Python 2 the test `isinstance(token, str)` (BlynkLib.py:223) holds for a byte-string (`str`) token, as in the usage example at BlynkLib.py:35, so `str.encode(token)` at BlynkLib.py:224 runs. It decodes the token as ASCII first, and it raises UnicodeDecodeError in `__init__` for a token byte of 0x80 or above. That error is not modelled. A `unicode` token is not modelled either: it skips :224 and stays unicode, so :548 counts its length in characters and `hdr + self._token` at :550 decodes the packed header as ASCII, raising UnicodeDecodeError once a header byte is 0x80 or above (the id's low byte, for instance, since `_msg_id` is not reset on reconnect).
- Values handed to `_format_msg` are taken as their `str` text. Ints are written with `Wire.IntText`, and the text a read callback returns with `Reaction.Value`.
