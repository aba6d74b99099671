/**
 The emulator's life as the server sees it: start and stop requests, the callbacks of emulator
 goroutines and the heartbeat, each one critical section, interleaved in any order.
 */
module Lifecycle {
  import opened Common
  import opened BroadcastProtocol

  datatype ServerState = StateError | StateStopped | StateStarting | StateRunning

  datatype ReportedState = ERROR | OFF | STARTING | RUNNING
  datatype AgentState = AgentState(emulatorState: ReportedState, emulatorError: Option<string>)

  /** The fields the server's mutex protects. */
  datatype Core<+E> = Core(state: ServerState, stateError: Option<string>, emu: Option<E>)

  datatype StartResult<+E> = Launched(emu: E) | LaunchFailed(err: string)

  /** What broadcastState publishes; None where it would dereference a nil error. */
  function Image<E>(c: Core<E>): Option<AgentState> {
    match c.state
    case StateError => if c.stateError.None? then None else Some(AgentState(ERROR, c.stateError))
    case StateStopped => Some(AgentState(OFF, None))
    case StateStarting => Some(AgentState(STARTING, None))
    case StateRunning => Some(AgentState(RUNNING, None))
  }

  /** What a watcher who is told `s` knows about the server. */
  predicate Tells<E(==)>(s: AgentState, c: Core<E>) {
    && (s.emulatorState == STARTING <==> c.state == StateStarting)
    && (s.emulatorState == RUNNING <==> c.state == StateRunning)
    && (s.emulatorState == OFF <==> c.state == StateStopped)
    && (s.emulatorState == ERROR <==> c.state == StateError)
    && (c.state == StateError ==> s.emulatorError == c.stateError)
    && (c.state != StateError ==> s.emulatorError == None)
  }

  lemma ImageTells<E>(c: Core<E>, s: AgentState)
    requires c.state == StateError ==> c.stateError.Some?
    ensures Image(c) == Some(s) <==> Tells(s, c)
  {
  }

  predicate MayStart<E>(c: Core<E>) {
    c.state == StateStopped || c.state == StateError
  }

  function AfterStart<E>(c: Core<E>, result: StartResult<E>): Core<E> {
    if !MayStart(c) then c
    else
      match result
      case Launched(e) => Core(StateStarting, None, Some(e))
      case LaunchFailed(err) => Core(StateError, Some(err), None)
  }

  function AfterStop<E>(c: Core<E>, err: Option<string>): Core<E> {
    if c.state == StateRunning && err.Some? then Core(StateError, err, None) else c
  }

  function AfterExit<E>(c: Core<E>, err: Option<string>): Core<E> {
    c.(state := if err.Some? then StateError else StateStopped, stateError := err)
  }

  function AfterStarted<E>(c: Core<E>): Core<E> {
    c.(state := StateRunning)
  }

  /** A kill goes to the process group at once; a graceful exit needs the controller connection. */
  function StopError(force: bool, connected: bool, osError: Option<string>): Option<string> {
    if force then osError
    else if !connected then Some("emulator not ready")
    else osError
  }

  /** A requested kill is no error; any other failed wait is. */
  function ExitError(forced: bool, sigkilled: bool, waitError: Option<string>, lastError: string): Option<string> {
    if forced && sigkilled then None
    else if waitError.Some? then Some("emulator exited with: " + waitError.value + ", last error: " + lastError)
    else None
  }

  // ---------------------------------------------------------------- the machine

  type EmuId = nat

  /** How far one emulator's goroutines are. */
  datatype Emulator = Emulator(connected: bool, started: bool, exited: bool, forced: bool)

  datatype World = World(
    core: Core<EmuId>,
    emus: map<EmuId, Emulator>,
    bus: System<AgentState>,
    crashed: bool,
    unpublished: bool,          // a failed start or stop came after the last publication
    sources: seq<Core<EmuId>>)  // the server state behind each publication

  datatype Event =
    | StartRequest(result: StartResult<EmuId>)
    | StopRequest(force: bool, osError: Option<string>)
    | Connected(e: EmuId)
    | Started(e: EmuId)
    | Exited(e: EmuId, waitError: Option<string>, sigkilled: bool, lastError: string)
    | Heartbeat
    | Watch(step: Step<AgentState>)

  const OFF_STATE := AgentState(OFF, None)

  /** The goroutines of an emulator make each callback once; the connection comes before the started callback. */
  ghost predicate Possible(w: World, ev: Event) {
    && !w.crashed
    && WellFormed(w.bus)
    && match ev
       case StartRequest(result) => result.Launched? ==> result.emu !in w.emus
       case StopRequest(_, _) => w.core.emu.Some? ==> w.core.emu.value in w.emus
       case Connected(e) => e in w.emus && !w.emus[e].connected
       case Started(e) => e in w.emus && w.emus[e].connected && !w.emus[e].started
       case Exited(e, _, _, _) => e in w.emus && !w.emus[e].exited
       case Heartbeat => true
       case Watch(step) => (step.DoListener? || step.DoEnter? || step.DoResume?) && Enabled(w.bus, step)
  }

  ghost function Broadcasting(w: World): (r: World)
    requires WellFormed(w.bus) && !w.bus.crashed
  {
    match Image(w.core)
    case None => w.(crashed := true)
    case Some(img) => w.(bus := Next(w.bus, DoBroadcast(img)), unpublished := false, sources := w.sources + [w.core])
  }

  ghost function After(w: World, ev: Event): World
    requires Possible(w, ev) && !w.bus.crashed
  {
    match ev
    case StartRequest(result) =>
      var w' := w.(core := AfterStart(w.core, result));
      if !MayStart(w.core) then w
      else if result.LaunchFailed? then w'.(unpublished := true)
      else Broadcasting(w'.(emus := w.emus[result.emu := Emulator(false, false, false, false)]))
    case StopRequest(force, osError) =>
      if w.core.state != StateRunning then w
      else if w.core.emu.None? then w.(crashed := true)
      else
        var e := w.core.emu.value;
        var err := StopError(force, w.emus[e].connected, osError);
        w.(core := AfterStop(w.core, err),
           emus := w.emus[e := w.emus[e].(forced := w.emus[e].forced || force)],
           unpublished := w.unpublished || err.Some?)
    case Connected(e) => w.(emus := w.emus[e := w.emus[e].(connected := true)])
    case Started(e) =>
      Broadcasting(w.(core := AfterStarted(w.core), emus := w.emus[e := w.emus[e].(started := true)]))
    case Exited(e, waitError, sigkilled, lastError) =>
      var err := ExitError(w.emus[e].forced, sigkilled, waitError, lastError);
      Broadcasting(w.(core := AfterExit(w.core, err), emus := w.emus[e := w.emus[e].(exited := true)]))
    case Heartbeat => Broadcasting(w)
    case Watch(step) => w.(bus := Next(w.bus, step))
  }

  // ---------------------------------------------------------------- what every step keeps

  ghost predicate Consistent(w: World) {
    && BroadcastProtocol.Inv(w.bus)
    && !w.bus.shared.closed
    && (w.core.state == StateError ==> w.core.stateError.Some?)
    && (w.core.emu.Some? ==> w.core.emu.value in w.emus)
    && (forall e :: e in w.emus && w.emus[e].started ==> w.emus[e].connected)
    && |w.sources| == |w.bus.published| > 0
    && (forall i :: 0 <= i < |w.sources| ==> Image(w.sources[i]) == Some(w.bus.published[i]))
    && (!w.unpublished ==> Image(w.core) == Some(w.bus.shared.value))
  }

  /** Watchers use a listener each, and fewer than 2^64 states were published. */
  ghost predicate Ordinary(w: World, ev: Event) {
    && (ev.Watch? ==> Unshared(w.bus, ev.step))
    && |w.bus.published| + 1 < TWO_64
  }

  /** The one way a step can crash the process: a stop request while Running without an emulator. */
  predicate StopsNothing(w: World, ev: Event) {
    ev.StopRequest? && w.core.state == StateRunning && w.core.emu.None?
  }

  lemma BroadcastingKeepsConsistent(w: World)
    requires BroadcastProtocol.Inv(w.bus) && !w.bus.shared.closed && |w.bus.published| + 1 < TWO_64
    requires w.core.state == StateError ==> w.core.stateError.Some?
    requires w.core.emu.Some? ==> w.core.emu.value in w.emus
    requires forall e :: e in w.emus && w.emus[e].started ==> w.emus[e].connected
    requires |w.sources| == |w.bus.published|
    requires forall i :: 0 <= i < |w.sources| ==> Image(w.sources[i]) == Some(w.bus.published[i])
    requires !w.crashed
    ensures Consistent(Broadcasting(w)) && !Broadcasting(w).crashed && !Broadcasting(w).unpublished
  {
    NextKeepsInv(w.bus, DoBroadcast(Image(w.core).value));
  }

  /** The steps that publish nothing. */
  lemma QuietStepKeepsConsistent(w: World, ev: Event)
    requires Consistent(w) && Possible(w, ev) && Ordinary(w, ev)
    requires ev.StopRequest? || ev.Connected? || (ev.StartRequest? && (!MayStart(w.core) || ev.result.LaunchFailed?))
    ensures Consistent(After(w, ev))
    ensures After(w, ev).crashed <==> StopsNothing(w, ev)
  {
  }

  lemma CallbackKeepsConsistent(w: World, ev: Event)
    requires Consistent(w) && Possible(w, ev) && Ordinary(w, ev)
    requires ev.Started? || ev.Exited?
    ensures Consistent(After(w, ev)) && !After(w, ev).crashed
  {
    match ev {
      case Started(e) =>
        BroadcastingKeepsConsistent(w.(core := AfterStarted(w.core), emus := w.emus[e := w.emus[e].(started := true)]));
      case Exited(e, waitError, sigkilled, lastError) =>
        var err := ExitError(w.emus[e].forced, sigkilled, waitError, lastError);
        BroadcastingKeepsConsistent(w.(core := AfterExit(w.core, err), emus := w.emus[e := w.emus[e].(exited := true)]));
    }
  }

  lemma LaunchKeepsConsistent(w: World, e: EmuId)
    requires var ev := StartRequest(Launched(e)); Consistent(w) && Possible(w, ev) && Ordinary(w, ev) && MayStart(w.core)
    ensures var w' := After(w, StartRequest(Launched(e))); Consistent(w') && !w'.crashed
  {
    BroadcastingKeepsConsistent(
      w.(core := AfterStart(w.core, Launched(e)), emus := w.emus[e := Emulator(false, false, false, false)]));
  }

  lemma WatchKeepsConsistent(w: World, step: Step<AgentState>)
    requires Consistent(w) && Possible(w, Watch(step)) && Ordinary(w, Watch(step))
    ensures Consistent(After(w, Watch(step))) && !After(w, Watch(step)).crashed
  {
    NextKeepsInv(w.bus, step);
    hide BroadcastProtocol.Inv;
  }

  lemma StepKeepsConsistent(w: World, ev: Event)
    requires Consistent(w) && Possible(w, ev) && Ordinary(w, ev)
    ensures Consistent(After(w, ev))
    ensures After(w, ev).crashed <==> StopsNothing(w, ev)
    ensures ev.Heartbeat? ==> !After(w, ev).unpublished
  {
    assert !w.bus.crashed;
    match ev
    case Heartbeat => BroadcastingKeepsConsistent(w);
    case Watch(step) => WatchKeepsConsistent(w, step);
    case Started(_) => CallbackKeepsConsistent(w, ev);
    case Exited(_, _, _, _) => CallbackKeepsConsistent(w, ev);
    case StartRequest(result) =>
      if MayStart(w.core) && result.Launched? {
        LaunchKeepsConsistent(w, result.emu);
      } else {
        QuietStepKeepsConsistent(w, ev);
      }
    case _ => QuietStepKeepsConsistent(w, ev);
  }

  // ---------------------------------------------------------------- agreement with the emulators

  predicate Live(w: World, e: EmuId) {
    e in w.emus && !w.emus[e].exited
  }

  /** At most one emulator lives, and state and emu say which one and how far it is. */
  ghost predicate Agrees(w: World) {
    && (forall e, e' :: Live(w, e) && Live(w, e') ==> e == e')
    && match w.core.state
       case StateStarting => w.core.emu.Some? && Live(w, w.core.emu.value) && !w.emus[w.core.emu.value].started
       case StateRunning => w.core.emu.Some? && Live(w, w.core.emu.value) && w.emus[w.core.emu.value].started
       case StateStopped => forall e :: !Live(w, e)
       case StateError => forall e :: !Live(w, e)
  }

  /** A stop that fails, or a started callback that arrives after its emulator's exit. */
  predicate Breaks(w: World, ev: Event)
    requires ev.StopRequest? && w.core.emu.Some? ==> w.core.emu.value in w.emus
    requires ev.Started? ==> ev.e in w.emus
  {
    || (ev.StopRequest? && w.core.state == StateRunning && w.core.emu.Some? &&
        StopError(ev.force, w.emus[w.core.emu.value].connected, ev.osError).Some?)
    || (ev.Started? && w.emus[ev.e].exited && w.core.state != StateRunning)
  }

  /** From an agreeing state exactly two kinds of step lose agreement. */
  lemma AgreementIsLostExactlyBy(w: World, ev: Event)
    requires Consistent(w) && Possible(w, ev) && Ordinary(w, ev) && Agrees(w)
    ensures Agrees(After(w, ev)) <==> !Breaks(w, ev)
    ensures !After(w, ev).crashed
  {
    StepKeepsConsistent(w, ev);
    var w' := After(w, ev);
    hide Consistent, BroadcastProtocol.Inv, Image;
    forall e ensures Live(w', e) <==>
        if ev.StartRequest? && MayStart(w.core) && ev.result.Launched? && ev.result.emu == e then true
        else Live(w, e) && !(ev.Exited? && ev.e == e)
    {
    }
    match ev
    case StartRequest(result) =>
      if MayStart(w.core) && result.Launched? {
        assert Live(w', result.emu);
      }
    case StopRequest(_, _) =>
      if w.core.state == StateRunning {
        assert Live(w', w.core.emu.value);
        assert Agrees(w') <==> !Breaks(w, ev);
      }
    case Connected(e) =>
      assert Agrees(w') <==> !Breaks(w, ev);
    case Started(e) =>
      if w.emus[e].exited {
        assert w.core.emu.Some? ==> w'.core.emu == w.core.emu;
        assert Agrees(w') <==> !Breaks(w, ev);
      } else {
        assert Live(w, e);
        assert Agrees(w') <==> !Breaks(w, ev);
      }
    case Exited(e, _, _, _) =>
      assert Live(w, e);
      assert Agrees(w') <==> !Breaks(w, ev);
    case Heartbeat =>
    case Watch(_) =>
  }

  /** The server right after its first publication. */
  ghost function Boot(): (w: World)
    ensures Consistent(w) && Agrees(w)
  {
    var core := Core(StateStopped, None, None);
    World(core, map[],
          System(Shared(1, OFF_STATE, false), map[], map[], false, [OFF_STATE], map[]),
          false, false, [core])
  }

  ghost predicate History(w: World, events: seq<Event>)
    requires Consistent(w)
    decreases |events|
  {
    events == [] ||
    (Possible(w, events[0]) && Ordinary(w, events[0]) &&
     (StepKeepsConsistent(w, events[0]); History(After(w, events[0]), events[1..])))
  }

  ghost function Outcome(w: World, events: seq<Event>): (r: World)
    requires Consistent(w) && History(w, events)
    ensures Consistent(r)
    decreases |events|
  {
    if events == [] then w
    else
      StepKeepsConsistent(w, events[0]);
      Outcome(After(w, events[0]), events[1..])
  }

  /** Every started callback comes before its emulator's exit callback, and no stop request fails. */
  ghost predicate Disciplined(w: World, events: seq<Event>)
    requires Consistent(w) && History(w, events)
    decreases |events|
  {
    events == [] ||
    (var ev := events[0];
     && (ev.Exited? ==> w.emus[ev.e].started)
     && (ev.StopRequest? && w.core.state == StateRunning && w.core.emu.Some? ==>
           StopError(ev.force, w.emus[w.core.emu.value].connected, ev.osError).None?)
     && (StepKeepsConsistent(w, ev); Disciplined(After(w, ev), events[1..])))
  }

  lemma {:induction false} DisciplinedKeepsAgreement(w: World, events: seq<Event>)
    requires Consistent(w) && History(w, events) && Disciplined(w, events)
    requires Agrees(w) && !w.crashed && forall e :: e in w.emus && w.emus[e].exited ==> w.emus[e].started
    ensures Agrees(Outcome(w, events)) && !Outcome(w, events).crashed
    decreases |events|
  {
    if events != [] {
      AgreementIsLostExactlyBy(w, events[0]);
      StepKeepsConsistent(w, events[0]);
      DisciplinedKeepsAgreement(After(w, events[0]), events[1..]);
    }
  }

  // ---------------------------------------------------------------- main results

  /**
   On every history the published value says what the server's state is, with the error's own text, unless
   a failed start or stop is still unpublished; the next heartbeat publishes it.
   */
  lemma PublishedStateIsCurrent(events: seq<Event>)
    requires History(Boot(), events)
    ensures var w := Outcome(Boot(), events);
            && (w.core.state == StateError ==> w.core.stateError.Some?)
            && w.bus.shared.value == w.bus.published[|w.bus.published| - 1]
            && (w.unpublished || Tells(w.bus.shared.value, w.core))
            && (!w.crashed && |w.bus.published| + 1 < TWO_64 ==>
                  var w' := After(w, Heartbeat);
                  !w'.crashed && w'.core == w.core && Tells(w'.bus.published[|w'.bus.published| - 1], w.core))
  {
    var w := Outcome(Boot(), events);
    ImageTells(w.core, w.bus.shared.value);
    if !w.crashed && |w.bus.published| + 1 < TWO_64 {
      var w' := After(w, Heartbeat);
      StepKeepsConsistent(w, Heartbeat);
      ImageTells(w.core, w'.bus.shared.value);
    }
    hide Image, After;
  }

  /** On every disciplined history the published value follows the emulators themselves: starting until the live one calls back. */
  lemma PublishedFollowsTheEmulator(events: seq<Event>)
    requires History(Boot(), events) && Disciplined(Boot(), events)
    requires !Outcome(Boot(), events).unpublished
    ensures var w := Outcome(Boot(), events);
            var told := w.bus.published[|w.bus.published| - 1].emulatorState;
            && (told == RUNNING <==> exists e :: e in w.emus && !w.emus[e].exited && w.emus[e].started)
            && (told == STARTING <==> exists e :: e in w.emus && !w.emus[e].exited && !w.emus[e].started)
            && (told == OFF || told == ERROR <==> forall e :: e in w.emus ==> w.emus[e].exited)
  {
    PublishedStateIsCurrent(events);
    DisciplinedHistoriesAgree(events);
    hide Consistent, History, Outcome, Disciplined, After;
    var w := Outcome(Boot(), events);
    assert forall e :: Live(w, e) <==> e in w.emus && !w.emus[e].exited;
  }

  /** On every disciplined history at most one emulator lives and the server state names it. */
  lemma DisciplinedHistoriesAgree(events: seq<Event>)
    requires History(Boot(), events) && Disciplined(Boot(), events)
    ensures Agrees(Outcome(Boot(), events)) && !Outcome(Boot(), events).crashed
  {
    DisciplinedKeepsAgreement(Boot(), events);
  }

  /** A watcher is sent some of the published states, in publication order. */
  lemma WatchersSeePublishedStatesInOrder(events: seq<Event>, h: Handle)
    requires History(Boot(), events)
    requires h in Outcome(Boot(), events).bus.log
    ensures var w := Outcome(Boot(), events);
            && Subsequence(Values(w.bus.log[h]), w.bus.published)
            && |w.sources| == |w.bus.published|
            && forall i :: 0 <= i < |w.bus.published| ==> Tells(w.bus.published[i], w.sources[i])
  {
    var w := Outcome(Boot(), events);
    assert GoodListener(w.bus, h);
    LogPicksInOrder(w.bus.log[h], w.bus.published);
    forall i | 0 <= i < |w.bus.published|
      ensures Tells(w.bus.published[i], w.sources[i])
    {
      assert Image(w.sources[i]) == Some(w.bus.published[i]);
    }
  }

  /** The four ways a process can end: only a requested kill and a clean exit are reported as off, all else with both errors. */
  lemma ExitIsReported(w: World, e: EmuId, waitError: Option<string>, sigkilled: bool, lastError: string)
    requires var ev := Exited(e, waitError, sigkilled, lastError); Consistent(w) && Possible(w, ev) && Ordinary(w, ev)
    ensures var w' := After(w, Exited(e, waitError, sigkilled, lastError));
            && !w'.crashed && w'.emus[e].exited
            && w'.bus.shared.value ==
               if waitError.None? || (w.emus[e].forced && sigkilled) then AgentState(OFF, None)
               else AgentState(ERROR, Some("emulator exited with: " + waitError.value + ", last error: " + lastError))
  {
    StepKeepsConsistent(w, Exited(e, waitError, sigkilled, lastError));
  }

  /** A launch is tried exactly when no emulator lives; its failure is forgotten nowhere: the next heartbeat publishes it. */
  lemma StartIsServed(w: World, result: StartResult<EmuId>)
    requires Consistent(w) && Possible(w, StartRequest(result)) && Ordinary(w, StartRequest(result)) && Agrees(w)
    ensures var w' := After(w, StartRequest(result));
            && (result.Launched? ==> (result.emu in w'.emus <==> forall e :: e in w.emus ==> w.emus[e].exited))
            && ((forall e :: e in w.emus ==> w.emus[e].exited) ==>
                  match result
                  case Launched(e) => w'.bus.shared.value == AgentState(STARTING, None) && w'.core.emu == Some(e)
                  case LaunchFailed(err) =>
                    && !w'.crashed && w'.bus == w.bus && w'.core.emu == None
                    && After(w', Heartbeat).bus.shared.value == AgentState(ERROR, Some(err)))
            && ((exists e :: e in w.emus && !w.emus[e].exited) ==> w' == w)
  {
    hide BroadcastProtocol.Inv;
    assert forall e :: Live(w, e) <==> e in w.emus && !w.emus[e].exited;
    StepKeepsConsistent(w, StartRequest(result));
  }

  /** A stop that fails, for the system's reason or because a graceful one came too early, is published by the next heartbeat. */
  lemma FailedStopIsReported(w: World, force: bool, osError: Option<string>)
    requires var ev := StopRequest(force, osError); Consistent(w) && Possible(w, ev) && Ordinary(w, ev)
    requires w.core.state == StateRunning && w.core.emu.Some?
    ensures var e, w' := w.core.emu.value, After(w, StopRequest(force, osError));
            && !w'.crashed && w'.bus == w.bus && (w'.emus[e].forced <==> w.emus[e].forced || force)
            && (if force || w.emus[e].connected then
                  if osError.None? then w'.core == w.core
                  else After(w', Heartbeat).bus.shared.value == AgentState(ERROR, osError) && w'.core.emu == None
                else After(w', Heartbeat).bus.shared.value == AgentState(ERROR, Some("emulator not ready")) && w'.core.emu == None)
  {
    StepKeepsConsistent(w, StopRequest(force, osError));
    hide BroadcastProtocol.Inv;
  }

  /** A requested kill is remembered, whatever else happens. */
  lemma {:induction false} ForcedStays(w: World, events: seq<Event>, e: EmuId)
    requires Consistent(w) && History(w, events)
    requires e in w.emus && w.emus[e].forced
    ensures e in Outcome(w, events).emus && Outcome(w, events).emus[e].forced
    decreases |events|
  {
    if events != [] {
      assert !w.bus.crashed;
      hide Consistent, BroadcastProtocol.Inv, Image;
      StepKeepsConsistent(w, events[0]);
      ForcedStays(After(w, events[0]), events[1..], e);
    }
  }

  /**
   An emulator that was asked to die dies without an error: whatever the stop request returned and whatever
   came in between, its exit by SIGKILL leaves the server stopped and published as off.
   */
  lemma KilledOnRequestIsOff(w: World, osError: Option<string>, between: seq<Event>, e: EmuId,
                             waitError: Option<string>, lastError: string)
    requires Consistent(w) && w.core.state == StateRunning && w.core.emu == Some(e)
    requires Possible(w, StopRequest(true, osError)) && Ordinary(w, StopRequest(true, osError))
    requires var stopped := After(w, StopRequest(true, osError)); Consistent(stopped) && History(stopped, between)
    requires var before := Outcome(After(w, StopRequest(true, osError)), between);
             var exit := Exited(e, waitError, true, lastError);
             Possible(before, exit) && Ordinary(before, exit)
    ensures var after := After(Outcome(After(w, StopRequest(true, osError)), between), Exited(e, waitError, true, lastError));
            && !after.crashed && after.core.state == StateStopped && after.core.stateError == None
            && after.bus.published[|after.bus.published| - 1] == OFF_STATE
  {
    var stopped := After(w, StopRequest(true, osError));
    assert e in stopped.emus && stopped.emus[e].forced;
    ForcedStays(stopped, between, e);
    var before := Outcome(stopped, between);
    StepKeepsConsistent(before, Exited(e, waitError, true, lastError));
    hide History, Outcome;
  }

  // ---------------------------------------------------------------- where the promise ends

  lemma OneMore(w: World, ev: Event, rest: seq<Event>)
    requires Consistent(w) && Possible(w, ev) && Ordinary(w, ev)
    requires Consistent(After(w, ev)) ==> History(After(w, ev), rest)
    ensures Consistent(After(w, ev)) && History(w, [ev] + rest)
    ensures Outcome(w, [ev] + rest) == Outcome(After(w, ev), rest)
  {
    StepKeepsConsistent(w, ev);
    assert ([ev] + rest)[1..] == rest;
  }

  lemma Last(w: World, ev: Event)
    requires Consistent(w) && Possible(w, ev) && Ordinary(w, ev)
    ensures Consistent(After(w, ev)) && History(w, [ev]) && Outcome(w, [ev]) == After(w, ev)
  {
    StepKeepsConsistent(w, ev);
    OneMore(w, ev, []);
    assert [ev] + [] == [ev];
  }

  /** A failed stop forgets a live emulator: the next start request makes a second one. */
  lemma FailedStopAllowsTwoEmulators(err: string) returns (events: seq<Event>)
    ensures History(Boot(), events)
    ensures Live(Outcome(Boot(), events), 0) && Live(Outcome(Boot(), events), 1)
  {
    hide History, Outcome, Consistent;
    var w0 := Boot();
    var e1, e2, e3, e4, e5 := StartRequest(Launched(0)), Connected(0), Started(0), StopRequest(false, Some(err)), StartRequest(Launched(1));
    StepKeepsConsistent(w0, e1); var w1 := After(w0, e1);
    StepKeepsConsistent(w1, e2); var w2 := After(w1, e2);
    StepKeepsConsistent(w2, e3); var w3 := After(w2, e3);
    StepKeepsConsistent(w3, e4); var w4 := After(w3, e4);
    StepKeepsConsistent(w4, e5); var w5 := After(w4, e5);
    Last(w4, e5);
    OneMore(w3, e4, [e5]);
    OneMore(w2, e3, [e4] + [e5]);
    OneMore(w1, e2, [e3] + ([e4] + [e5]));
    OneMore(w0, e1, [e2] + ([e3] + ([e4] + [e5])));
    events := [e1] + ([e2] + ([e3] + ([e4] + [e5])));
  }

  /** A started callback later than its emulator's exit can leave Running with no emulator at all; a stop request then crashes. */
  lemma StaleStartedCrashesStop(err: string) returns (events: seq<Event>)
    ensures History(Boot(), events)
    ensures Outcome(Boot(), events).crashed
  {
    hide History, Outcome, Consistent;
    var w0 := Boot();
    var e1, e2, e3 := StartRequest(Launched(0)), Connected(0), Exited(0, None, false, "");
    var e4, e5, e6 := StartRequest(LaunchFailed(err)), Started(0), StopRequest(true, None);
    StepKeepsConsistent(w0, e1); var w1 := After(w0, e1);
    StepKeepsConsistent(w1, e2); var w2 := After(w1, e2);
    StepKeepsConsistent(w2, e3); var w3 := After(w2, e3);
    StepKeepsConsistent(w3, e4); var w4 := After(w3, e4);
    StepKeepsConsistent(w4, e5); var w5 := After(w4, e5);
    StepKeepsConsistent(w5, e6); var w6 := After(w5, e6);
    Last(w5, e6);
    OneMore(w4, e5, [e6]);
    OneMore(w3, e4, [e5] + [e6]);
    OneMore(w2, e3, [e4] + ([e5] + [e6]));
    OneMore(w1, e2, [e3] + ([e4] + ([e5] + [e6])));
    OneMore(w0, e1, [e2] + ([e3] + ([e4] + ([e5] + [e6]))));
    events := [e1] + ([e2] + ([e3] + ([e4] + ([e5] + [e6]))));
  }
}

/** The server object: the handlers and callbacks that run under its mutex. */
module Server {
  import opened Common
  import BroadcastProtocol
  import opened Lifecycle
  import opened Broadcaster

  class EmulatorHandle {
    var connected: bool
    var forceExitRequested: bool

    constructor ()
      ensures !connected && !forceExitRequested
    {
      connected, forceExitRequested := false, false;
    }

    /** `osError` is what the kill or the controller's exit request returns. */
    method Stop(force: bool, osError: Option<string>) returns (err: Option<string>)
      modifies this`forceExitRequested
      ensures err == StopError(force, connected, osError)
      ensures forceExitRequested == (old(forceExitRequested) || force)
    {
      if force {
        forceExitRequested := true;
        return osError;
      }
      if !connected {
        return Some("emulator not ready");
      }
      err := osError;
    }

    method FinalError(waitError: Option<string>, sigkilled: bool, lastError: string) returns (err: Option<string>)
      ensures err == ExitError(forceExitRequested, sigkilled, waitError, lastError)
    {
      err := None;
      if forceExitRequested && sigkilled {
      } else if waitError.Some? {
        err := Some("emulator exited with: " + waitError.value + ", last error: " + lastError);
      }
    }
  }

  datatype Reply = Accepted | Refused | NilEmulator

  class Server {
    var state: ServerState
    var stateError: Option<string>
    var emu: EmulatorHandle?
    const stateBroadcaster: Broadcaster<AgentState>

    function Fields(): Core<EmulatorHandle>
      reads this
    {
      Core(state, stateError, if emu == null then None else Some(emu))
    }

    ghost predicate Valid()
      reads this
    {
      state == StateError ==> stateError.Some?
    }

    /** The channel's fields after publishing the present state. */
    ghost function Announced(before: BroadcastProtocol.Shared<AgentState>): BroadcastProtocol.Shared<AgentState>
      requires Valid()
      reads this
    {
      BroadcastProtocol.Publish(before, Image(Fields()).value)
    }

    constructor ()
      ensures Valid() && Fields() == Core(StateStopped, None, None)
      ensures fresh(stateBroadcaster)
    {
      state, stateError, emu := StateStopped, None, null;
      stateBroadcaster := new Broadcaster(AgentState(OFF, None));
    }

    method BroadcastState()
      requires Valid()
      modifies stateBroadcaster
      ensures stateBroadcaster.Fields() == Announced(old(stateBroadcaster.Fields()))
      ensures Tells(stateBroadcaster.value, Fields())
    {
      var newState;
      match state {
        case StateError => newState := AgentState(ERROR, stateError);
        case StateStopped => newState := AgentState(OFF, None);
        case StateStarting => newState := AgentState(STARTING, None);
        case StateRunning => newState := AgentState(RUNNING, None);
      }
      stateBroadcaster.Broadcast(newState);
    }

    method Heartbeat()
      requires Valid()
      modifies stateBroadcaster
      ensures stateBroadcaster.Fields() == Announced(old(stateBroadcaster.Fields()))
      ensures Tells(stateBroadcaster.value, Fields())
    {
      BroadcastState();
    }

    method OnEmulatorExit(err: Option<string>)
      requires Valid()
      modifies this, stateBroadcaster
      ensures Valid() && Fields() == AfterExit(old(Fields()), err)
      ensures stateBroadcaster.Fields() == Announced(old(stateBroadcaster.Fields()))
      ensures stateBroadcaster.value == if err.Some? then AgentState(ERROR, err) else AgentState(OFF, None)
    {
      if err.Some? {
        state := StateError;
        stateError := err;
      } else {
        state := StateStopped;
        stateError := None;
      }
      BroadcastState();
    }

    method OnEmulatorStarted()
      requires Valid()
      modifies this, stateBroadcaster
      ensures Valid() && Fields() == AfterStarted(old(Fields()))
      ensures stateBroadcaster.Fields() == Announced(old(stateBroadcaster.Fields()))
      ensures stateBroadcaster.value == AgentState(RUNNING, None)
    {
      state := StateRunning;
      BroadcastState();
    }

    /** `result` is what launching an emulator returns, should the request get that far. */
    method StartEmulator(result: StartResult<EmulatorHandle>) returns (reply: Reply)
      requires Valid()
      modifies this, stateBroadcaster
      ensures Valid() && Fields() == AfterStart(old(Fields()), result)
      ensures reply == if MayStart(old(Fields())) then Accepted else Refused
      ensures stateBroadcaster.Fields() ==
              if MayStart(old(Fields())) && result.Launched? then Announced(old(stateBroadcaster.Fields()))
              else old(stateBroadcaster.Fields())
      ensures old(state) != StateStarting && old(state) != StateRunning && result.Launched? ==>
                stateBroadcaster.value == AgentState(STARTING, None) && emu == result.emu
    {
      if state != StateStopped && state != StateError {
        return Refused;
      }
      match result {
        case LaunchFailed(err) =>
          state := StateError;
          emu := null;
          stateError := Some(err);
        case Launched(e) =>
          state := StateStarting;
          emu := e;
          stateError := None;
          BroadcastState();
      }
      reply := Accepted;
    }

    method StopEmulator(force: bool, osError: Option<string>) returns (reply: Reply)
      requires Valid()
      modifies this, emu
      ensures Valid()
      ensures old(state) != StateRunning ==> reply == Refused && Fields() == old(Fields())
      ensures old(state) == StateRunning && old(emu) == null ==> reply == NilEmulator
      ensures old(state) == StateRunning && old(emu) != null ==>
                && reply == Accepted
                && Fields() == AfterStop(old(Fields()), StopError(force, old(emu.connected), osError))
                && old(emu).forceExitRequested == (old(emu.forceExitRequested) || force)
      ensures stateBroadcaster.Fields() == old(stateBroadcaster.Fields())
    {
      if state != StateRunning {
        return Refused;
      }
      if emu == null {
        return NilEmulator;
      }
      var err := emu.Stop(force, osError);
      if err.Some? {
        state := StateError;
        emu := null;
        stateError := err;
      }
      reply := Accepted;
    }
  }
}
