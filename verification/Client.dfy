/** The connection state of the client core, under every sequence of completed calls. */
module Client {
  import opened Options

  datatype CoreError = NotAuthenticated | InvalidTransition | Unauthorized | Other(message: string)

  datatype Result<T> = Ok(value: T) | Err(error: CoreError)

  // ----- connection states -----

  datatype ConnectionState = Disconnected | Connecting | Connected | Disconnecting | Failed(reason: string) {
    predicate CanTransitionTo(next: ConnectionState) {
      match (this, next)
      case (Disconnected, Connecting) => true
      case (Connecting, Connected) => true
      case (Connecting, Failed(_)) => true
      case (Connecting, Disconnecting) => true
      case (Connected, Disconnecting) => true
      case (Connected, Failed(_)) => true
      case (Disconnecting, Disconnected) => true
      case (Disconnecting, Failed(_)) => true
      case (Failed(_), Connecting) => true
      case (Failed(_), Disconnected) => true
      case _ => false
    }
  }

  datatype Session = Session(deviceId: string, refreshToken: string)
  datatype Connection = Connection(id: string, server: string, probeAddr: Option<string>)

  /** Cumulative byte counters and when they were read, in nanoseconds. */
  datatype Sample = Sample(rx: nat, tx: nat, at: int)

  datatype Inner = Inner(
    accessToken: string, session: Option<Session>, state: ConnectionState,
    activeConnectionId: Option<string>, currentServer: Option<string>,
    connectedAt: Option<int>, lastSample: Option<Sample>,
    downloadBps: nat, uploadBps: nat, latencyMs: nat, probeAddr: Option<string>)

  const NEW := Inner("", None, Disconnected, None, None, None, None, 0, 0, 0, None)

  // ----- requests with a token -----

  /** The server's replies: to the request and to its repetition, each to whatever token it
      carries, and to up to two refreshes. The repetition may be answered differently even if the
      token is the same. */
  datatype Api<!T> = Api(
    request: string -> Result<T>, retry: string -> Result<T>, refresh: Result<string>, again: Result<string>)

  function Refreshed(i: Inner, reply: Result<string>): Result<string> {
    if i.session.None? || i.session.value.refreshToken == "" then Err(NotAuthenticated) else reply
  }

  function AccessToken(i: Inner, reply: Result<string>): Result<string> {
    if i.accessToken != "" then Ok(i.accessToken) else Refreshed(i, reply)
  }

  /** The answer to a request and the token that is kept. */
  function Authed<T>(i: Inner, api: Api<T>): (Result<T>, string) {
    match AccessToken(i, api.refresh)
    case Err(e) => (Err(e), i.accessToken)
    case Ok(access) =>
      var first := api.request(access);
      if first != Err(Unauthorized) then (first, access)
      else
        match Refreshed(i, api.again)
        case Err(e) => (Err(e), access)
        case Ok(refreshed) => (api.retry(refreshed), refreshed)
  }

  /** A success was answered to the token that is kept, and only a rejected or missing token is replaced. */
  lemma AuthedKeepsTheTokenThatWorked<T(!new)>(i: Inner, api: Api<T>)
    ensures var (result, token) := Authed(i, api);
            && (result.Ok? ==> api.request(token) == result || api.retry(token) == result)
            && (i.accessToken != "" && api.request(i.accessToken) != Err(Unauthorized) ==>
                  token == i.accessToken && result == api.request(token))
            && (token != i.accessToken ==> i.session.Some? && i.session.value.refreshToken != "")
  {
  }

  predicate CanRefresh(i: Inner) {
    i.session.Some? && i.session.value.refreshToken != ""
  }

  /** How the answer comes about when the token that is carried first is known: by one request, or, if that is
      rejected, by one refresh and one repetition with the token it brings. */
  ghost predicate AnsweredWith<T(!new)>(i: Inner, api: Api<T>, access: string, r: Result<T>, token: string) {
    if api.request(access) != Err(Unauthorized) then r == api.request(access) && token == access
    else if !CanRefresh(i) then r == Err(NotAuthenticated) && token == access
    else if api.again.Err? then r == Err(api.again.error) && token == access
    else r == api.retry(api.again.value) && token == api.again.value
  }

  lemma AuthedMeans<T(!new)>(i: Inner, api: Api<T>)
    ensures var (r, token) := Authed(i, api);
            && (i.accessToken != "" ==> AnsweredWith(i, api, i.accessToken, r, token))
            && (i.accessToken == "" && !CanRefresh(i) ==> r == Err(NotAuthenticated) && token == "")
            && (i.accessToken == "" && CanRefresh(i) && api.refresh.Err? ==> r == Err(api.refresh.error) && token == "")
            && (i.accessToken == "" && CanRefresh(i) && api.refresh.Ok? ==> AnsweredWith(i, api, api.refresh.value, r, token))
  {
  }

  // ----- calls -----

  datatype Event =
    | Restore(session: Session)
    | Enroll(reply: Result<(string, Session)>)
    | PrepareConnection(connect: Api<Connection>)
    | MarkConnected(now: int)
    | MarkFailed(reason: string)
    | Connect(connect: Api<Connection>, up: Result<()>, now: int)
    | Disconnect(down: Result<()>, release: Api<()>)
    | ReportTunnelStats(sample: Sample, latency: Option<nat>, stats: Api<()>)
    | KeepAlive(stats: Api<()>)

  function Message(e: CoreError): string {
    match e
    case NotAuthenticated => "not authenticated"
    case InvalidTransition => "invalid transition"
    case Unauthorized => "unauthorized"
    case Other(message) => message
  }

  /** Bytes per second between two samples; nothing when a counter went back. */
  function Rate(prev: nat, cur: nat, seconds: real): nat {
    if seconds <= 0.0 || cur < prev then 0
    else
      assert (cur - prev) as real / seconds >= 0.0;
      var rate := ((cur - prev) as real / seconds).Floor;
      if rate > U64_MAX then U64_MAX else rate
  }

  const U64_MAX: nat := 0xffff_ffff_ffff_ffff

  /** Whole bytes per second, rounded down, over a time in nanoseconds; zero when a counter went back or no time has
      passed; the largest 64-bit number when there are more. */
  predicate IsRate(bps: nat, before: nat, after: nat, nanos: int) {
    if nanos <= 0 || after < before then bps == 0
    else
      && bps * nanos <= (after - before) * 1_000_000_000
      && bps <= 0xffff_ffff_ffff_ffff
      && (bps < 0xffff_ffff_ffff_ffff ==> (after - before) * 1_000_000_000 < (bps + 1) * nanos)
  }

  lemma FloorMeans(x: int, n: int, f: int)
    requires n > 0 && f == (x as real / n as real).Floor
    ensures f * n <= x < (f + 1) * n
  {
    var q := x as real / n as real;
    QuotientTimes(x as real, n as real);
    assert f as real <= q < (f + 1) as real;
    RealProducts(f as real, q, (f + 1) as real, n as real);
    ProductAsReal(f, n);
    ProductAsReal(f + 1, n);
  }

  lemma QuotientTimes(x: real, n: real)
    requires n > 0.0
    ensures x / n * n == x
  {
  }

  lemma ProductAsReal(a: int, b: int)
    ensures (a * b) as real == a as real * b as real
  {
  }

  lemma RealProducts(a: real, q: real, b: real, n: real)
    requires a <= q < b && n > 0.0
    ensures a * n <= q * n < b * n
  {
  }

  lemma SecondsQuotient(d: int, n: int)
    requires n > 0
    ensures d as real / (n as real / 1000000000.0) == (d * 1_000_000_000) as real / n as real
  {
    var x, y := d as real, n as real;
    assert x / (y / 1000000000.0) * (y / 1000000000.0) == x;
    QuotientIs(x / (y / 1000000000.0), x * 1000000000.0, y);
  }

  lemma QuotientIs(q: real, x: real, y: real)
    requires y > 0.0 && q * (y / 1000000000.0) * 1000000000.0 == x
    ensures q == x / y
  {
  }

  lemma RateMeans(before: nat, after: nat, from: int, to: int)
    ensures IsRate(Rate(before, after, Seconds(from, to)), before, after, to - from)
  {
    var nanos := to - from;
    if nanos > 0 && before <= after {
      SecondsQuotient(after - before, nanos);
      var f := ((after - before) as real / Seconds(from, to)).Floor;
      FloorMeans((after - before) * 1_000_000_000, nanos, f);
      SmallerProduct(U64_MAX, f, nanos);
    }
  }

  lemma SmallerProduct(a: int, f: int, n: int)
    requires n > 0
    ensures a <= f ==> a * n <= f * n
  {
  }

  function Seconds(from: int, to: int): real {
    if to < from then 0.0 else (to - from) as real / 1000000000.0
  }

  function AfterPrepare(i: Inner, connect: Api<Connection>): (Result<Connection>, Inner) {
    if !i.state.CanTransitionTo(Connecting) then (Err(InvalidTransition), i)
    else if i.session == None then (Err(NotAuthenticated), i)
    else
      var (result, token) := Authed(i, connect);
      match result
      case Err(e) => (result, i.(accessToken := token, state := Failed(Message(e))))
      case Ok(c) =>
        (result, i.(accessToken := token, state := Connecting, activeConnectionId := Some(c.id),
                    currentServer := Some(c.server), probeAddr := c.probeAddr))
  }

  function AfterMarkConnected(i: Inner, now: int): Inner {
    if !i.state.CanTransitionTo(Connected) then i
    else i.(state := Connected, connectedAt := Some(now), lastSample := None, downloadBps := 0, uploadBps := 0, latencyMs := 0)
  }

  function AfterConnect(i: Inner, connect: Api<Connection>, up: Result<()>, now: int): (Result<Connection>, Inner) {
    var (result, prepared) := AfterPrepare(i, connect);
    if result.Err? then (result, prepared)
    else if up.Err? then (Err(up.error), prepared.(state := Failed(Message(up.error))))
    else (result, AfterMarkConnected(prepared, now))
  }

  function AfterDisconnect(i: Inner, down: Result<()>, release: Api<()>): (Result<()>, Inner) {
    if i.activeConnectionId == None then (Ok(()), i)
    else if down.Err? then (down, i.(state := Disconnecting))
    else (Ok(()), NEW.(accessToken := Authed(i, release).1, session := i.session))
  }

  function AfterReport(i: Inner, sample: Sample, latency: Option<nat>, stats: Api<()>): Inner {
    if i.state != Connected then i
    else
      var reported := i.(lastSample := Some(sample), latencyMs := if latency.Some? then latency.value else i.latencyMs);
      var measured :=
        if i.lastSample == None then reported
        else
          var last := i.lastSample.value;
          var seconds := Seconds(last.at, sample.at);
          reported.(downloadBps := Rate(last.rx, sample.rx, seconds), uploadBps := Rate(last.tx, sample.tx, seconds));
      AfterKeepAlive(measured, stats)
  }

  function AfterKeepAlive(i: Inner, stats: Api<()>): Inner {
    if i.state != Connected || i.activeConnectionId == None then i else i.(accessToken := Authed(i, stats).1)
  }

  function After(i: Inner, e: Event): Inner {
    match e
    case Restore(session) => i.(session := Some(session), accessToken := "")
    case Enroll(reply) => if reply.Err? then i else i.(accessToken := reply.value.0, session := Some(reply.value.1))
    case PrepareConnection(connect) => AfterPrepare(i, connect).1
    case MarkConnected(now) => AfterMarkConnected(i, now)
    case MarkFailed(reason) => i.(state := Failed(reason))
    case Connect(connect, up, now) => AfterConnect(i, connect, up, now).1
    case Disconnect(down, release) => AfterDisconnect(i, down, release).1
    case ReportTunnelStats(sample, latency, stats) => AfterReport(i, sample, latency, stats)
    case KeepAlive(stats) => AfterKeepAlive(i, stats)
  }

  function Run(events: seq<Event>): Inner {
    if events == [] then NEW else After(Run(events[..|events| - 1]), events[|events| - 1])
  }

  // ----- what every sequence of calls keeps -----

  predicate Idle(i: Inner) {
    && i.lastSample == None && i.downloadBps == 0 && i.uploadBps == 0 && i.latencyMs == 0
  }

  /** A connection that is under way has an id; without one, nothing of an old connection is left. */
  predicate Inv(i: Inner) {
    && (i.state.Connecting? || i.state.Connected? || i.state.Disconnecting? ==> i.activeConnectionId.Some?)
    && (i.state.Disconnected? ==> i.activeConnectionId == None && i.connectedAt == None)
    && (i.state.Connected? ==> i.connectedAt.Some?)
    && (i.connectedAt == None ==> Idle(i))
    && (i.activeConnectionId == None ==> i.currentServer == None && i.probeAddr == None)
    && (i.activeConnectionId.Some? <==> i.currentServer.Some?)
  }

  lemma AfterKeepsInv(i: Inner, e: Event)
    requires Inv(i)
    ensures Inv(After(i, e))
  {
    hide Authed, Rate, Message;
  }

  lemma {:induction false} RunKeepsInv(events: seq<Event>)
    ensures Inv(Run(events))
  {
    hide Inv, After;
    if events == [] {
      NewIsFine();
    } else {
      RunKeepsInv(events[..|events| - 1]);
      AfterKeepsInv(Run(events[..|events| - 1]), events[|events| - 1]);
    }
  }

  lemma NewIsFine()
    ensures Inv(NEW)
  {
  }

  // ----- the states a call goes through -----

  /** The states that a call assigns, in order. */
  function Assigned(i: Inner, e: Event): seq<ConnectionState> {
    match e
    case PrepareConnection(connect) => AssignedByPrepare(i, connect)
    case MarkConnected(_) => if i.state.CanTransitionTo(Connected) then [Connected] else []
    case MarkFailed(reason) => [Failed(reason)]
    case Connect(connect, up, now) =>
      var (result, prepared) := AfterPrepare(i, connect);
      AssignedByPrepare(i, connect)
      + if result.Err? then [] else if up.Err? then [Failed(Message(up.error))] else [Connected]
    case Disconnect(down, _) =>
      if i.activeConnectionId == None then [] else if down.Err? then [Disconnecting] else [Disconnecting, Disconnected]
    case _ => []
  }

  function AssignedByPrepare(i: Inner, connect: Api<Connection>): seq<ConnectionState> {
    if !i.state.CanTransitionTo(Connecting) || i.session == None then []
    else
      match AfterPrepare(i, connect).0
      case Err(e) => [Connecting, Failed(Message(e))]
      case Ok(_) => [Connecting]
  }

  predicate Follows(from: ConnectionState, states: seq<ConnectionState>)
    decreases |states|
  {
    states != [] ==> from.CanTransitionTo(states[0]) && Follows(states[0], states[1..])
  }

  function Last(from: ConnectionState, states: seq<ConnectionState>): ConnectionState {
    if states == [] then from else states[|states| - 1]
  }

  /** The calls that assign a state without asking the transition table. */
  predicate Forces(i: Inner, e: Event) {
    || (e.MarkFailed? && (i.state.Disconnected? || i.state.Failed?))
    || (e.Disconnect? && i.activeConnectionId.Some? && (i.state.Failed? || i.state.Disconnecting?))
  }

  lemma FollowsOne(from: ConnectionState, a: ConnectionState)
    ensures Follows(from, [a]) <==> from.CanTransitionTo(a)
  {
  }

  lemma FollowsTwo(from: ConnectionState, a: ConnectionState, b: ConnectionState)
    ensures Follows(from, [a, b]) <==> from.CanTransitionTo(a) && a.CanTransitionTo(b)
  {
    FollowsOne(a, b);
    assert [a, b][1..] == [b];
  }

  /** A call ends in the last state it assigns, and keeps to the table unless it is one of two that force a state. */
  lemma CallsFollowTable(i: Inner, e: Event)
    requires Inv(i)
    ensures After(i, e).state == Last(i.state, Assigned(i, e))
    ensures Follows(i.state, Assigned(i, e)) <==> !Forces(i, e)
  {
    hide Authed, Rate, Message;
    var states := Assigned(i, e);
    if |states| == 1 {
      FollowsOne(i.state, states[0]);
      assert states == [states[0]];
    } else if |states| == 2 {
      FollowsTwo(i.state, states[0], states[1]);
      assert states == [states[0], states[1]];
    }
    hide Follows;
  }

  /** Connected is assigned only to a client that is connecting, also within a call. */
  lemma ConnectedFromConnecting(i: Inner, e: Event, k: nat)
    requires k < |Assigned(i, e)| && Assigned(i, e)[k] == Connected
    ensures Last(i.state, Assigned(i, e)[..k]) == Connecting
  {
    hide Authed, Rate, Message;
  }

  lemma {:induction false} EveryRun(events: seq<Event>, e: Event)
    ensures Inv(Run(events))
    ensures Run(events + [e]).state == Last(Run(events).state, Assigned(Run(events), e))
    ensures Follows(Run(events).state, Assigned(Run(events), e)) <==> !Forces(Run(events), e)
    ensures forall k :: 0 <= k < |Assigned(Run(events), e)| && Assigned(Run(events), e)[k] == Connected ==>
              Last(Run(events).state, Assigned(Run(events), e)[..k]) == Connecting
  {
    assert (events + [e])[..|events|] == events;
    RunKeepsInv(events);
    hide Inv, After, Assigned, Follows, Last, Forces;
    CallsFollowTable(Run(events), e);
    forall k | 0 <= k < |Assigned(Run(events), e)| && Assigned(Run(events), e)[k] == Connected
      ensures Last(Run(events).state, Assigned(Run(events), e)[..k]) == Connecting
    {
      ConnectedFromConnecting(Run(events), e, k);
    }
  }

  // ----- the client -----

  predicate MayConnect(i: Inner) {
    i.state.Disconnected? || i.state.Failed?
  }

  class VpnClient {
    var inner: Inner
    ghost var states: seq<ConnectionState>

    constructor ()
      ensures inner == NEW && states == []
    {
      inner, states := NEW, [];
    }

    method SetState(state: ConnectionState)
      modifies this
      ensures inner == old(inner).(state := state) && states == old(states) + [state]
    {
      inner, states := inner.(state := state), states + [state];
    }

    method RunAuthed<T>(api: Api<T>) returns (r: Result<T>)
      modifies this`inner
      ensures (r, inner.accessToken) == Authed(old(inner), api)
      ensures inner == old(inner).(accessToken := inner.accessToken)
    {
      var access := inner.accessToken;
      if access == "" {
        var refreshed := Refreshed(inner, api.refresh);
        if refreshed.Err? {
          return Err(refreshed.error);
        }
        access := refreshed.value;
        inner := inner.(accessToken := access);
      }
      r := api.request(access);
      if r == Err(Unauthorized) {
        var refreshed := Refreshed(inner, api.again);
        if refreshed.Err? {
          return Err(refreshed.error);
        }
        inner := inner.(accessToken := refreshed.value);
        r := api.retry(refreshed.value);
      }
    }

    method Prepare(connect: Api<Connection>) returns (r: Result<Connection>)
      modifies this
      ensures (r, inner) == AfterPrepare(old(inner), connect)
      ensures !MayConnect(old(inner)) ==> r == Err(InvalidTransition) && inner == old(inner)
      ensures MayConnect(old(inner)) && old(inner).session == None ==> r == Err(NotAuthenticated) && inner == old(inner)
      ensures MayConnect(old(inner)) && old(inner).session.Some? ==>
                && (r, inner.accessToken) == Authed(old(inner), connect)
                && (r.Err? ==> inner == old(inner).(accessToken := inner.accessToken, state := Failed(Message(r.error))))
                && (r.Ok? ==> inner == old(inner).(accessToken := inner.accessToken, state := Connecting,
                                activeConnectionId := Some(r.value.id), currentServer := Some(r.value.server),
                                probeAddr := r.value.probeAddr))
      ensures states == old(states) + Assigned(old(inner), PrepareConnection(connect))
    {
      hide Authed;
      if !inner.state.CanTransitionTo(Connecting) {
        return Err(InvalidTransition);
      }
      if inner.session == None {
        return Err(NotAuthenticated);
      }
      ghost var was := inner;
      SetState(Connecting);
      AuthedIgnoresState(was, Connecting, connect);
      r := RunAuthed(connect);
      if r.Err? {
        SetState(Failed(Message(r.error)));
        return;
      }
      inner := inner.(activeConnectionId := Some(r.value.id), currentServer := Some(r.value.server),
                      probeAddr := r.value.probeAddr);
    }

    method MarkAsConnected(now: int)
      modifies this
      ensures inner == AfterMarkConnected(old(inner), now)
      ensures old(inner).state.Connecting? ==>
                inner == old(inner).(state := Connected, connectedAt := Some(now), lastSample := None,
                                     downloadBps := 0, uploadBps := 0, latencyMs := 0)
      ensures !old(inner).state.Connecting? ==> inner == old(inner)
      ensures states == old(states) + Assigned(old(inner), MarkConnected(now))
    {
      if inner.state.CanTransitionTo(Connected) {
        SetState(Connected);
        inner := inner.(connectedAt := Some(now), lastSample := None, downloadBps := 0, uploadBps := 0, latencyMs := 0);
      }
    }

    method MarkAsFailed(reason: string)
      modifies this
      ensures inner == After(old(inner), MarkFailed(reason)) && inner == old(inner).(state := Failed(reason))
      ensures states == old(states) + Assigned(old(inner), MarkFailed(reason))
    {
      SetState(Failed(reason));
    }

    method ConnectTo(connect: Api<Connection>, up: Result<()>, now: int) returns (r: Result<Connection>)
      modifies this
      ensures (r, inner) == AfterConnect(old(inner), connect, up, now)
      ensures r.Ok? ==> MayConnect(old(inner)) && old(inner).session.Some? && up.Ok?
      ensures r.Ok? ==>
                && inner.state == Connected && inner.connectedAt == Some(now) && inner.session == old(inner).session
                && inner.activeConnectionId == Some(r.value.id) && inner.currentServer == Some(r.value.server)
                && inner.probeAddr == r.value.probeAddr && inner.lastSample == None
                && inner.downloadBps == 0 && inner.uploadBps == 0 && inner.latencyMs == 0
      ensures r.Err? && MayConnect(old(inner)) && old(inner).session.Some? ==> inner.state == Failed(Message(r.error))
      ensures MayConnect(old(inner)) && old(inner).session.Some? && Authed(old(inner), connect).0.Ok? && up.Err? ==>
                && r == Err(up.error)
                && inner.activeConnectionId == Some(Authed(old(inner), connect).0.value.id)
      ensures states == old(states) + Assigned(old(inner), Connect(connect, up, now))
    {
      hide Authed;
      r := Prepare(connect);
      if r.Err? {
        return;
      }
      if up.Err? {
        SetState(Failed(Message(up.error)));
        return Err(up.error);
      }
      MarkAsConnected(now);
    }

    method DisconnectNow(down: Result<()>, release: Api<()>) returns (r: Result<()>)
      modifies this
      ensures (r, inner) == AfterDisconnect(old(inner), down, release)
      ensures old(inner).activeConnectionId == None ==> r == Ok(()) && inner == old(inner)
      ensures old(inner).activeConnectionId.Some? && down.Err? ==>
                r == down && inner == old(inner).(state := Disconnecting)
      ensures old(inner).activeConnectionId.Some? && down.Ok? ==>
                && r == Ok(())
                && inner == Inner(Authed(old(inner), release).1, old(inner).session, Disconnected,
                                  None, None, None, None, 0, 0, 0, None)
      ensures states == old(states) + Assigned(old(inner), Disconnect(down, release))
    {
      hide Authed;
      if inner.activeConnectionId == None {
        return Ok(());
      }
      AuthedIgnoresState(inner, Disconnecting, release);
      SetState(Disconnecting);
      if down.Err? {
        return down;
      }
      var ignored := RunAuthed(release);
      SetState(Disconnected);
      inner := inner.(activeConnectionId := None, currentServer := None, connectedAt := None, lastSample := None,
                      downloadBps := 0, uploadBps := 0, latencyMs := 0, probeAddr := None);
      r := Ok(());
    }

    method RestoreSession(session: Session)
      modifies this`inner
      ensures inner == After(old(inner), Restore(session))
      ensures inner == old(inner).(session := Some(session), accessToken := "")
    {
      inner := inner.(session := Some(session));
      inner := inner.(accessToken := "");
    }

    method EnrollDevice(reply: Result<(string, Session)>) returns (r: Result<Session>)
      modifies this`inner
      ensures inner == After(old(inner), Enroll(reply))
      ensures reply.Err? ==> inner == old(inner)
      ensures reply.Ok? ==> inner == old(inner).(accessToken := reply.value.0, session := Some(reply.value.1))
      ensures r == if reply.Ok? then Ok(reply.value.1) else Err(reply.error)
    {
      if reply.Err? {
        return Err(reply.error);
      }
      inner := inner.(accessToken := reply.value.0);
      inner := inner.(session := Some(reply.value.1));
      r := Ok(reply.value.1);
    }

    method RenewLease(stats: Api<()>) returns (r: Result<()>)
      modifies this`inner
      ensures inner == After(old(inner), KeepAlive(stats))
      ensures inner == old(inner).(accessToken := inner.accessToken)
      ensures old(inner).state == Connected && old(inner).activeConnectionId.Some? ==>
                (r, inner.accessToken) == Authed(old(inner), stats)
      ensures r == if old(inner).state == Connected && old(inner).activeConnectionId.Some? then Authed(old(inner), stats).0
                   else Ok(())
    {
      hide Authed;
      if inner.state != Connected || inner.activeConnectionId == None {
        return Ok(());
      }
      r := RunAuthed(stats);
    }

    method ReportStats(sample: Sample, latency: Option<nat>, stats: Api<()>)
      modifies this`inner
      ensures inner == AfterReport(old(inner), sample, latency, stats)
      ensures old(inner).state != Connected ==> inner == old(inner)
      ensures old(inner).state == Connected ==>
                && inner.lastSample == Some(sample)
                && inner.latencyMs == (if latency.Some? then latency.value else old(inner).latencyMs)
                && inner == old(inner).(accessToken := inner.accessToken, lastSample := inner.lastSample,
                     latencyMs := inner.latencyMs, downloadBps := inner.downloadBps, uploadBps := inner.uploadBps)
      ensures old(inner).state == Connected && old(inner).lastSample == None ==>
                inner.downloadBps == old(inner).downloadBps && inner.uploadBps == old(inner).uploadBps
      ensures old(inner).state == Connected && old(inner).lastSample.Some? ==>
                var last := old(inner).lastSample.value;
                && IsRate(inner.downloadBps, last.rx, sample.rx, sample.at - last.at)
                && IsRate(inner.uploadBps, last.tx, sample.tx, sample.at - last.at)
    {
      hide Authed, Rate, IsRate, Seconds;
      if inner.state != Connected {
        return;
      }
      if inner.lastSample.Some? {
        var last := inner.lastSample.value;
        var seconds := Seconds(last.at, sample.at);
        RateMeans(last.rx, sample.rx, last.at, sample.at);
        RateMeans(last.tx, sample.tx, last.at, sample.at);
        inner := inner.(downloadBps := Rate(last.rx, sample.rx, seconds));
        inner := inner.(uploadBps := Rate(last.tx, sample.tx, seconds));
      }
      inner := inner.(lastSample := Some(sample));
      if latency.Some? {
        inner := inner.(latencyMs := latency.value);
      }
      if inner.activeConnectionId.Some? {
        var ignored := RunAuthed(stats);
      }
    }
  }

  lemma AuthedIgnoresState<T>(i: Inner, state: ConnectionState, api: Api<T>)
    ensures Authed(i.(state := state), api) == Authed(i, api)
  {
  }
}
