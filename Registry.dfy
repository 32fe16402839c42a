/** Pin registration (BlynkLib.py:429-469) and user tasks (BlynkLib.py:171-188).
    A virtual pin must be an int in 0..MAX_VIRTUAL_PINS-1; digital and analog
    pins may be any int. Registering a pin replaces whatever that pin had in
    its own namespace and nothing else. A user task's period is clamped to at
    least one second, and a task registered as authenticated-only runs only
    while the session is AUTHENTICATED. */
module Registry {
  import opened Wire
  import opened Types
  import opened Dispatch

  /** The registries with one namespace's map replaced. */
  function WithRegistry(p: Pins, ns: Namespace, m: map<int, PinEntry>): Pins {
    match ns
    case Virtual => p.(virtual := m)
    case Digital => p.(digital := m)
    case Analog => p.(analog := m)
  }

  /** add_virtual_pin / add_digital_hw_pin / add_analog_hw_pin. */
  function Register(p: Pins, ns: Namespace, pin: int, e: PinEntry): (Pins, Outcome<()>)
  {
    if ns == Virtual && !(0 <= pin < MAX_VIRTUAL_PINS) then (p, Err(ValueError))
    else (WithRegistry(p, ns, Registry(p, ns)[pin := e]), Ok(()))
  }

  /** add_virtual_pin succeeds exactly for 0 <= pin < 128; on failure it raises
      ValueError and leaves every registry as it was. */
  lemma RegisterVirtualIff(p: Pins, pin: int, e: PinEntry)
    ensures var (p2, r) := Register(p, Virtual, pin, e);
      && (r.Ok? <==> 0 <= pin < MAX_VIRTUAL_PINS)
      && (r.Err? ==> r.exc == ValueError && p2 == p)
  {
  }

  /** The boundary cases: 127 is accepted, 128 and -1 are not. */
  lemma RegisterVirtualBounds(p: Pins, e: PinEntry)
    ensures Register(p, Virtual, 127, e).1.Ok?
    ensures Register(p, Virtual, 128, e) == (p, Err(ValueError))
    ensures Register(p, Virtual, -1, e) == (p, Err(ValueError))
  {
  }

  /** The digital and analog registries accept every int, negative ones included. */
  lemma RegisterHwAlways(p: Pins, ns: Namespace, pin: int, e: PinEntry)
    requires ns != Virtual
    ensures Register(p, ns, pin, e).1 == Ok(())
  {
  }

  /** A successful registration makes the pin's callbacks the new ones and
      leaves every other pin in every namespace -- and the same pin number in
      the other two namespaces -- as it was. */
  lemma RegisterOverwritesOnly(p: Pins, ns: Namespace, pin: int, e: PinEntry, ns2: Namespace, pin2: int)
    requires Register(p, ns, pin, e).1.Ok?
    ensures var p2 := Register(p, ns, pin, e).0;
      && ReadHandler(p2, ns, pin) == e.read
      && WriteHandler(p2, ns, pin) == e.write
      && (ns2 != ns || pin2 != pin ==>
            ReadHandler(p2, ns2, pin2) == ReadHandler(p, ns2, pin2)
            && WriteHandler(p2, ns2, pin2) == WriteHandler(p, ns2, pin2))
    ensures var p2 := Register(p, ns, pin, e).0;
      ns2 != ns ==> Registry(p2, ns2) == Registry(p, ns2)
  {
  }

  /** Registration keeps every virtual pin within 0..127. */
  lemma RegisterKeepsVirtualRange(p: Pins, ns: Namespace, pin: int, e: PinEntry)
    requires forall q :: q in p.virtual ==> 0 <= q < MAX_VIRTUAL_PINS
    ensures var p2 := Register(p, ns, pin, e).0;
      forall q :: q in p2.virtual ==> 0 <= q < MAX_VIRTUAL_PINS
  {
  }

  // ---------------------------------------------------------------------------
  // User tasks

  /** A UserTask: its handler (if any), its period and whether it waits for
      AUTHENTICATED. The per-task state dictionary is not modelled. */
  datatype UserTask = UserTask(handler: Option<nat>, period: int, authenticatedOnly: bool)

  /** UserTask(task_handler, period_in_seconds, ..., authenticated). */
  function NewTask(handler: Option<nat>, periodInSeconds: int, authenticated: bool): UserTask
  {
    UserTask(handler, if periodInSeconds > 0 then periodInSeconds else 1, authenticated)
  }

  /** The period is clamped: a positive period is kept and anything else
      becomes one second, so a task never runs with a period below 1. */
  lemma TaskPeriodClamp(handler: Option<nat>, periodInSeconds: int, authenticated: bool)
    ensures var t := NewTask(handler, periodInSeconds, authenticated);
      && t.period >= 1
      && (periodInSeconds > 0 <==> t.period == periodInSeconds)
      && t.handler == handler && t.authenticatedOnly == authenticated
  {
  }

  /** The gate of run_task: a handler exists, and either the task does not
      wait for authentication or the session is AUTHENTICATED. */
  predicate TaskMayRun(t: UserTask, state: ConnState) {
    t.handler.Some? && (!t.authenticatedOnly || state == Authenticated)
  }

  /** run_task: call the handler when the gate is open. The timer that repeats
      the task is started only after the handler returns, so a raising handler
      is not repeated; the result reports that exception. */
  function TaskEffect(w: World, respond: Responder, t: UserTask): (World, Outcome<()>)
  {
    if TaskMayRun(t, w.state) then
      var (w1, re) := Invoke(w, respond, TaskCall(t.handler.value));
      (w1, if re.Value? then Ok(()) else Err(CallbackRaised))
    else (w, Ok(()))
  }

  /** An authenticated-only task never runs outside AUTHENTICATED, and a task
      without handler never runs: nothing changes. */
  lemma TaskGated(w: World, respond: Responder, t: UserTask)
    requires t.handler.None? || (t.authenticatedOnly && w.state != Authenticated)
    ensures TaskEffect(w, respond, t) == (w, Ok(()))
  {
  }

  /** When the gate is open the handler is called exactly once, and nothing
      but the call log changes. */
  lemma TaskRuns(w: World, respond: Responder, t: UserTask)
    requires TaskMayRun(t, w.state)
    ensures var (w2, r) := TaskEffect(w, respond, t);
      && w2 == w.(calls := w.calls + [TaskCall(t.handler.value)])
      && (r.Ok? <==> respond(TaskCall(t.handler.value), |w.calls|).Value?)
  {
  }

  /** Start every task once, in registration order, as _run does before
      connecting (BlynkLib.py:524-526); a raising task ends _run. */
  function StartTasks(w: World, respond: Responder, tasks: seq<UserTask>): (World, Outcome<()>)
    decreases |tasks|
  {
    if tasks == [] then (w, Ok(()))
    else
      var (w1, r) := TaskEffect(w, respond, tasks[0]);
      if r.Err? then (w1, r) else StartTasks(w1, respond, tasks[1..])
  }

  /** The calls of tasks whose gate is open, in order, when none raises. */
  function GatedCalls(tasks: seq<UserTask>, state: ConnState): seq<Call>
    decreases |tasks|
  {
    if tasks == [] then []
    else (if TaskMayRun(tasks[0], state) then [TaskCall(tasks[0].handler.value)] else []) + GatedCalls(tasks[1..], state)
  }

  /** Starting the tasks changes only the call log; when no task raises, the
      log gains exactly the calls of the tasks whose gate is open, in order --
      in particular no authenticated-only task runs before authentication. */
  lemma {:induction false} StartTasksSpec(w: World, respond: Responder, tasks: seq<UserTask>)
    ensures var (w2, r) := StartTasks(w, respond, tasks);
      && w2 == w.(calls := w2.calls)
      && w.calls <= w2.calls
      && (r.Ok? ==> w2.calls == w.calls + GatedCalls(tasks, w.state))
    decreases |tasks|
  {
    if tasks != [] {
      var (w1, r) := TaskEffect(w, respond, tasks[0]);
      if r.Ok? {
        StartTasksSpec(w1, respond, tasks[1..]);
        var head := if TaskMayRun(tasks[0], w.state) then [TaskCall(tasks[0].handler.value)] else [];
        assert w1.calls == w.calls + head;
        assert w1.state == w.state;
      }
    }
  }
}
