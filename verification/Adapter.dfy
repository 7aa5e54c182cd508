/** The life of the WireGuard backend behind the tunnel adapter: operations on one serial queue. */
module Adapter {
  import opened Options

  // a tunnel configuration with its endpoints resolved
  type Settings(==, !new)

  datatype State = Stopped | Started(handle: int, settings: Settings) | TemporaryShutdown(settings: Settings)

  datatype AdapterError =
    | InvalidState
    | DnsResolution
    | SetNetworkSettings
    | CannotLocateTunnelFileDescriptor
    | StartWireGuardBackend(code: int)

  /** Calls that the backend acts on; a start that fails is not one. */
  datatype Call =
    | TurnOn(handle: int, config: Settings)
    | TurnOff(handle: int)
    | SetConfig(handle: int, config: Settings)
    | SetEndpoints(handle: int, config: Settings)
    | DisableRoaming(handle: int)
    | BumpSockets(handle: int)

  /** What the system answers during an operation: DNS, network settings, descriptor, backend. */
  datatype Answers = Answers(settings: Option<Settings>, applied: bool, descriptor: bool, handle: int)

  // ----- what has happened so far -----

  datatype History = History(state: State, monitored: bool, calls: seq<Call>, accepted: Option<Settings>)

  const NEW := History(Stopped, false, [], None)

  function SetupError(a: Answers): Option<AdapterError> {
    if a.settings == None then Some(DnsResolution) else if !a.applied then Some(SetNetworkSettings) else None
  }

  function BackendError(a: Answers): Option<AdapterError> {
    if !a.descriptor then Some(CannotLocateTunnelFileDescriptor)
    else if a.handle < 0 then Some(StartWireGuardBackend(a.handle))
    else None
  }

  function StartError(h: History, a: Answers): Option<AdapterError> {
    if h.state != Stopped then Some(InvalidState)
    else if SetupError(a) != None then SetupError(a)
    else BackendError(a)
  }

  function UpdateError(h: History, a: Answers): Option<AdapterError> {
    if h.state == Stopped then Some(InvalidState) else SetupError(a)
  }

  function On(handle: int, settings: Settings): seq<Call> {
    [TurnOn(handle, settings), DisableRoaming(handle)]
  }

  datatype Event =
    | Start(answers: Answers)
    | Stop
    | Update(answers: Answers)
    | PathUpdate(satisfiable: bool, answers: Answers)

  function AfterStart(h: History, a: Answers): History {
    if StartError(h, a) != None then h
    else
      var settings := a.settings.value;
      History(Started(a.handle, settings), true, h.calls + On(a.handle, settings), a.settings)
  }

  function AfterStop(h: History): History {
    if h.state == Stopped then h
    else h.(state := Stopped, monitored := false,
            calls := h.calls + if h.state.Started? then [TurnOff(h.state.handle)] else [])
  }

  function AfterUpdate(h: History, a: Answers): History {
    if UpdateError(h, a) != None then h
    else
      var settings := a.settings.value;
      if h.state.Started? then
        h.(state := Started(h.state.handle, settings), accepted := a.settings,
           calls := h.calls + [SetConfig(h.state.handle, settings), DisableRoaming(h.state.handle)])
      else h.(state := TemporaryShutdown(settings), accepted := a.settings)
  }

  function AfterPathUpdate(h: History, satisfiable: bool, a: Answers): History {
    match h.state
    case Stopped => h
    case Started(handle, settings) =>
      if satisfiable then
        h.(calls := h.calls + [SetEndpoints(handle, settings), DisableRoaming(handle), BumpSockets(handle)])
      else h.(state := TemporaryShutdown(settings), calls := h.calls + [TurnOff(handle)])
    case TemporaryShutdown(settings) =>
      if !satisfiable || !a.applied || BackendError(a) != None then h
      else h.(state := Started(a.handle, settings), calls := h.calls + On(a.handle, settings))
  }

  function After(h: History, e: Event): History {
    match e
    case Start(a) => AfterStart(h, a)
    case Stop => AfterStop(h)
    case Update(a) => AfterUpdate(h, a)
    case PathUpdate(satisfiable, a) => AfterPathUpdate(h, satisfiable, a)
  }

  function Run(events: seq<Event>): History {
    if events == [] then NEW else After(Run(events[..|events| - 1]), events[|events| - 1])
  }

  // ----- what the backend goes through -----

  datatype Replayed = Broken | Ran(live: Option<int>, config: Option<Settings>)

  /** One call: broken by a start while another handle is live, or by a call on a handle that is not. */
  function Step(r: Replayed, c: Call): Replayed {
    if r == Broken then Broken
    else if c.TurnOn? then (if r.live == None then Ran(Some(c.handle), Some(c.config)) else Broken)
    else if r.live != Some(c.handle) then Broken
    else
      match c
      case TurnOff(_) => Ran(None, None)
      case SetConfig(_, config) => Ran(r.live, Some(config))
      case SetEndpoints(_, config) => if r.config == Some(config) then r else Broken
      case _ => r
  }

  /** The live handle and the configuration it was last given. */
  function Replay(calls: seq<Call>): Replayed {
    if calls == [] then Ran(None, None) else Step(Replay(calls[..|calls| - 1]), calls[|calls| - 1])
  }

  function Starts(calls: seq<Call>): int {
    if calls == [] then 0 else Starts(calls[..|calls| - 1]) + if calls[|calls| - 1].TurnOn? then 1 else 0
  }

  function Shutdowns(calls: seq<Call>): int {
    if calls == [] then 0 else Shutdowns(calls[..|calls| - 1]) + if calls[|calls| - 1].TurnOff? then 1 else 0
  }

  // what the backend should be doing in a state
  function Expected(s: State): Replayed {
    if s.Started? then Ran(Some(s.handle), Some(s.settings)) else Ran(None, None)
  }

  /** The backend follows the state, is watched unless stopped, and the settings are the accepted ones. */
  ghost predicate Good(h: History) {
    && Replay(h.calls) == Expected(h.state)
    && (h.monitored <==> h.state != Stopped)
    && (h.state != Stopped ==> h.accepted == Some(h.state.settings))
  }

  lemma ReplayOne(calls: seq<Call>, a: Call)
    ensures Replay(calls + [a]) == Step(Replay(calls), a)
  {
    assert (calls + [a])[..|calls|] == calls;
    hide Step;
  }

  lemma ReplayTwo(calls: seq<Call>, a: Call, b: Call)
    ensures Replay(calls + [a, b]) == Step(Step(Replay(calls), a), b)
  {
    hide Step, Replay;
    ReplayOne(calls, a);
    ReplayOne(calls + [a], b);
    assert calls + [a] + [b] == calls + [a, b];
  }

  lemma ReplayThree(calls: seq<Call>, a: Call, b: Call, c: Call)
    ensures Replay(calls + [a, b, c]) == Step(Step(Step(Replay(calls), a), b), c)
  {
    hide Step, Replay;
    ReplayTwo(calls, a, b);
    ReplayOne(calls + [a, b], c);
    assert calls + [a, b] + [c] == calls + [a, b, c];
  }

  /** Every operation, whatever the system answers, keeps the backend in step with the state. */
  lemma AfterIsGood(h: History, e: Event)
    requires Good(h)
    ensures Good(After(h, e))
  {
    hide Replay;
    match e {
      case Start(a) =>
        if StartError(h, a) == None {
          ReplayTwo(h.calls, TurnOn(a.handle, a.settings.value), DisableRoaming(a.handle));
        }
      case Stop =>
        if h.state.Started? {
          ReplayOne(h.calls, TurnOff(h.state.handle));
        } else {
          assert h.calls + [] == h.calls;
        }
      case Update(a) =>
        if UpdateError(h, a) == None && h.state.Started? {
          ReplayTwo(h.calls, SetConfig(h.state.handle, a.settings.value), DisableRoaming(h.state.handle));
        }
      case PathUpdate(_, a) =>
        match h.state {
          case Stopped =>
          case Started(handle, settings) =>
            ReplayThree(h.calls, SetEndpoints(handle, settings), DisableRoaming(handle), BumpSockets(handle));
            ReplayOne(h.calls, TurnOff(handle));
          case TemporaryShutdown(settings) =>
            ReplayTwo(h.calls, TurnOn(a.handle, settings), DisableRoaming(a.handle));
        }
    }
  }

  lemma {:induction false} EveryRunIsGood(events: seq<Event>)
    ensures Good(Run(events))
  {
    hide Good, After;
    if events == [] {
      NewIsGood();
    } else {
      EveryRunIsGood(events[..|events| - 1]);
      AfterIsGood(Run(events[..|events| - 1]), events[|events| - 1]);
    }
  }

  lemma NewIsGood()
    ensures Good(NEW)
  {
  }

  lemma {:induction false} CountsBalance(calls: seq<Call>)
    requires Replay(calls) != Broken
    ensures Starts(calls) - Shutdowns(calls) == if Replay(calls).live == None then 0 else 1
  {
    if calls != [] {
      CountsBalance(calls[..|calls| - 1]);
    }
  }

  /** Over every sequence of operations, one more start than shutdowns while started, and none otherwise. */
  lemma StartsAndShutdowns(events: seq<Event>)
    ensures var h := Run(events); Starts(h.calls) - Shutdowns(h.calls) == if h.state.Started? then 1 else 0
    ensures var h := Run(events); h.monitored <==> h.state != Stopped
  {
    hide Run;
    EveryRunIsGood(events);
    CountsBalance(Run(events).calls);
  }

  // ----- what a sequence of operations amounts to, told by the operations alone -----

  predicate SetUp(a: Answers) {
    a.settings.Some? && a.applied
  }

  predicate BackendUp(a: Answers) {
    a.descriptor && 0 <= a.handle
  }

  /** A start has succeeded and no stop has followed. */
  predicate InSession(events: seq<Event>) {
    events != [] &&
    match events[|events| - 1]
    case Start(a) => InSession(events[..|events| - 1]) || (SetUp(a) && BackendUp(a))
    case Stop => false
    case _ => InSession(events[..|events| - 1])
  }

  /** Within the session the network has gone, and has not come back with a backend that starts. */
  predicate Offline(events: seq<Event>) {
    events != [] &&
    var before := events[..|events| - 1];
    InSession(before) &&
    match events[|events| - 1]
    case Stop => false
    case PathUpdate(satisfiable, a) => !satisfiable || (Offline(before) && !(a.applied && BackendUp(a)))
    case _ => Offline(before)
  }

  /** The settings of the last start or update that took effect. */
  function LastAccepted(events: seq<Event>): Option<Settings> {
    if events == [] then None
    else
      var before, last := events[..|events| - 1], events[|events| - 1];
      if last.Start? && !InSession(before) && SetUp(last.answers) && BackendUp(last.answers) then last.answers.settings
      else if last.Update? && InSession(before) && SetUp(last.answers) then last.answers.settings
      else LastAccepted(before)
  }

  // the handle of the backend that was started last
  function LastHandle(events: seq<Event>): int {
    if events == [] then 0
    else
      var before, last := events[..|events| - 1], events[|events| - 1];
      match last
      case Start(a) => if !InSession(before) && SetUp(a) && BackendUp(a) then a.handle else LastHandle(before)
      case PathUpdate(satisfiable, a) =>
        if Offline(before) && satisfiable && a.applied && BackendUp(a) then a.handle else LastHandle(before)
      case _ => LastHandle(before)
  }

  ghost predicate AsTold(events: seq<Event>) {
    var h := Run(events);
    && (h.state.Stopped? <==> !InSession(events))
    && (h.state.TemporaryShutdown? <==> Offline(events))
    && (Offline(events) ==> InSession(events))
    && (h.state.Started? ==> h.state.handle == LastHandle(events))
    && h.accepted == LastAccepted(events)
  }

  lemma {:induction false} RunIsAsTold(events: seq<Event>)
    ensures AsTold(events)
  {
    if events != [] {
      RunIsAsTold(events[..|events| - 1]);
    }
  }

  /** Over every sequence of operations and whatever the system answers: the backend is live exactly in a session
      whose network is there, with the handle it was last started with and the settings accepted last. */
  lemma LiveExactly(events: seq<Event>)
    ensures Replay(Run(events).calls) ==
            if InSession(events) && !Offline(events) then Ran(Some(LastHandle(events)), LastAccepted(events)) else Ran(None, None)
    ensures Run(events).monitored <==> InSession(events)
    ensures InSession(events) ==> LastAccepted(events).Some?
  {
    RunIsAsTold(events);
    EveryRunIsGood(events);
    hide Run, InSession, Offline, LastAccepted, LastHandle, Replay;
  }

  /** What an operation adds to the calls of the backend. */
  function Added(events: seq<Event>, e: Event): seq<Call> {
    if !InSession(events) then
      if e.Start? && SetUp(e.answers) && BackendUp(e.answers)
      then [TurnOn(e.answers.handle, e.answers.settings.value), DisableRoaming(e.answers.handle)] else []
    else if LastAccepted(events) == None then []
    else
      var handle, settings := LastHandle(events), LastAccepted(events).value;
      if Offline(events) then
        if e.PathUpdate? && e.satisfiable && e.answers.applied && BackendUp(e.answers)
        then [TurnOn(e.answers.handle, settings), DisableRoaming(e.answers.handle)] else []
      else
        match e
        case Start(_) => []
        case Stop => [TurnOff(handle)]
        case Update(a) =>
          if SetUp(a) then [SetConfig(handle, a.settings.value), DisableRoaming(handle)] else []
        case PathUpdate(satisfiable, _) =>
          if satisfiable then [SetEndpoints(handle, settings), DisableRoaming(handle), BumpSockets(handle)]
          else [TurnOff(handle)]
  }

  lemma CallsAdded(events: seq<Event>, e: Event)
    ensures Run(events + [e]).calls == Run(events).calls + Added(events, e)
  {
    assert (events + [e])[..|events|] == events;
    RunIsAsTold(events);
    EveryRunIsGood(events);
    hide InSession, Offline, LastAccepted, LastHandle, Replay;
    assert Run(events).calls + [] == Run(events).calls;
  }

  /** When the network goes, the backend is shut down and its settings are kept. */
  lemma LosingTheNetwork(events: seq<Event>, a: Answers)
    ensures var h, h' := Run(events), Run(events + [PathUpdate(false, a)]);
            && Replay(h'.calls) == Ran(None, None)
            && (h.state.Started? ==>
                  h'.state == TemporaryShutdown(h.state.settings) && h'.calls == h.calls + [TurnOff(h.state.handle)])
            && (!h.state.Started? ==> h' == h)
  {
    assert (events + [PathUpdate(false, a)])[..|events|] == events;
    LiveExactly(events + [PathUpdate(false, a)]);
    hide Replay, LastAccepted, LastHandle;
  }

  /** Coming back online starts the backend with the settings accepted last, even if that was while offline. */
  lemma ResumeUsesLastAccepted(events: seq<Event>, e: Event)
    requires Offline(events) && !Offline(events + [e]) && InSession(events + [e])
    ensures e.PathUpdate? && e.satisfiable
    ensures LastAccepted(events).Some?
    ensures Run(events + [e]).state == Started(e.answers.handle, LastAccepted(events).value)
    ensures Run(events + [e]).calls == Run(events).calls + On(e.answers.handle, LastAccepted(events).value)
  {
    assert (events + [e])[..|events|] == events;
    EveryRunIsGood(events);
    RunIsAsTold(events);
    CallsAdded(events, e);
    hide LastAccepted, Replay;
  }

  // ----- the adapter -----

  class WireGuardAdapter {
    var state: State
    var networkMonitor: bool
    ghost var calls: seq<Call>
    ghost var accepted: Option<Settings>

    ghost function Past(): History
      reads this
    {
      History(state, networkMonitor, calls, accepted)
    }

    constructor ()
      ensures Past() == NEW
    {
      state, networkMonitor, calls, accepted := Stopped, false, [], None;
    }

    method StartBackend(settings: Settings, a: Answers) returns (r: Option<AdapterError>)
      modifies this`calls
      ensures r == BackendError(a)
      ensures calls == old(calls) + if r == None then On(a.handle, settings) else []
    {
      if !a.descriptor {
        return Some(CannotLocateTunnelFileDescriptor);
      }
      if a.handle < 0 {
        return Some(StartWireGuardBackend(a.handle));
      }
      calls := calls + [TurnOn(a.handle, settings), DisableRoaming(a.handle)];
      r := None;
    }

    method Start(a: Answers) returns (r: Option<AdapterError>)
      modifies this
      ensures r == StartError(old(Past()), a) && Past() == AfterStart(old(Past()), a)
      ensures r == None <==> old(state) == Stopped && a.settings.Some? && a.applied && a.descriptor && 0 <= a.handle
      ensures r == Some(InvalidState) <==> old(state) != Stopped
      ensures r == Some(DnsResolution) <==> old(state) == Stopped && a.settings == None
      ensures r == Some(SetNetworkSettings) <==> old(state) == Stopped && a.settings.Some? && !a.applied
      ensures r != None ==> Past() == old(Past())
      ensures Good(old(Past())) ==> Good(Past())
    {
      ghost var past := Past();
      AfterIsKept(past, Event.Start(a));
      hide Good;
      if state != Stopped {
        return Some(InvalidState);
      }
      var monitor := true;
      if a.settings == None {
        return Some(DnsResolution);
      }
      if !a.applied {
        return Some(SetNetworkSettings);
      }
      r := StartBackend(a.settings.value, a);
      if r != None {
        return;
      }
      state := Started(a.handle, a.settings.value);
      networkMonitor := monitor;
      accepted := a.settings;
    }

    method Stop() returns (r: Option<AdapterError>)
      modifies this
      ensures r == if old(state) == Stopped then Some(InvalidState) else None
      ensures Past() == AfterStop(old(Past()))
      ensures Good(old(Past())) ==> Good(Past())
    {
      AfterIsKept(Past(), Event.Stop);
      hide Good;
      match state {
        case Started(handle, _) => calls := calls + [TurnOff(handle)];
        case TemporaryShutdown(_) =>
        case Stopped => return Some(InvalidState);
      }
      networkMonitor := false;
      state := Stopped;
      r := None;
    }

    method Update(a: Answers) returns (r: Option<AdapterError>)
      modifies this
      ensures r == UpdateError(old(Past()), a) && Past() == AfterUpdate(old(Past()), a)
      ensures r == None <==> old(state) != Stopped && a.settings.Some? && a.applied
      ensures r == Some(InvalidState) <==> old(state) == Stopped
      ensures r == Some(DnsResolution) <==> old(state) != Stopped && a.settings == None
      ensures r != None ==> Past() == old(Past())
      ensures Good(old(Past())) ==> Good(Past())
    {
      AfterIsKept(Past(), Event.Update(a));
      hide Good;
      if state == Stopped {
        return Some(InvalidState);
      }
      if a.settings == None {
        return Some(DnsResolution);
      }
      if !a.applied {
        return Some(SetNetworkSettings);
      }
      match state {
        case Started(handle, _) =>
          calls := calls + [SetConfig(handle, a.settings.value), DisableRoaming(handle)];
          state := Started(handle, a.settings.value);
        case TemporaryShutdown(_) =>
          state := TemporaryShutdown(a.settings.value);
      }
      accepted := a.settings;
      r := None;
    }

    /** The iOS branch; a resume that fails is only logged. */
    method DidReceivePathUpdate(satisfiable: bool, a: Answers)
      modifies this
      ensures Past() == AfterPathUpdate(old(Past()), satisfiable, a)
      ensures Good(old(Past())) ==> Good(Past())
    {
      AfterIsKept(Past(), PathUpdate(satisfiable, a));
      hide Good;
      match state {
        case Started(handle, settings) =>
          if satisfiable {
            calls := calls + [SetEndpoints(handle, settings), DisableRoaming(handle), BumpSockets(handle)];
          } else {
            state := TemporaryShutdown(settings);
            calls := calls + [TurnOff(handle)];
          }
        case TemporaryShutdown(settings) =>
          if !satisfiable {
            return;
          }
          if a.applied {
            var failure := StartBackend(settings, a);
            if failure == None {
              state := Started(a.handle, settings);
            }
          }
        case Stopped =>
      }
    }

    /** The deinitializer leaves no backend running. */
    method Deinit()
      modifies this
      ensures !networkMonitor && (Good(old(Past())) ==> Replay(calls) == Ran(None, None))
    {
      networkMonitor := false;
      if state.Started? {
        ReplayOne(calls, TurnOff(state.handle));
        calls := calls + [TurnOff(state.handle)];
      }
    }
  }

  lemma AfterIsKept(h: History, e: Event)
    ensures Good(h) ==> Good(After(h, e))
  {
    hide Good, After;
    if Good(h) {
      AfterIsGood(h, e);
    }
  }
}
