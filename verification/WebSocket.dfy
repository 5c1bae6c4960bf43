/** WebSocket sessions and the @connections API (kumostack/services/apigateway.py).  Tasks
    interleave where the source awaits; each event below is one uninterrupted stretch of code. */
module WebSocket {
  import opened Prelude

  datatype Item = Message(body: string) | Sentinel

  /** What is sent on a socket: `Pushed` comes from the outbox, `Reply` from a route's Lambda. */
  datatype Frame = Accept | Close(code: nat) | Pushed(body: string) | Reply(body: string)

  /** Where handle_websocket is suspended. */
  datatype Main =
    | AwaitConnect
    | Authorizing
    | Refusing
    | Accepting
    | Receiving
    | Handling
    | Replying
    | Joining
    | Disconnecting
    | Closing
    | Finished

  /** Where the drain task is: created but not yet run, waiting in outbox.get() with its
      timeout, inside send, or done. */
  datatype Drain = NotStarted | Ready | Getting | Sending | Exited

  /** `route` is set when teardown looks up the $disconnect route; `hooks` counts its
      invocations; `faulted` records that a send of the main task raised, that the $connect
      hook raised, or that the first message was not a connect. */
  datatype Session = Session(
    api: string,
    isWebSocket: bool,
    main: Main,
    drain: Drain,
    outbox: seq<Item>,
    closeEvent: bool,
    frames: seq<Frame>,
    route: Option<bool>,
    hooks: nat,
    faulted: bool
  )

  datatype Verdict = Granted | Denied | Raised

  datatype Result = NoReply | Body(body: string) | Failed

  /** Results of what the main task awaits; `sent` tells whether the send it makes next
      succeeds. */
  datatype MainEvent =
    | FirstMessage(isConnect: bool, hasRoute: bool, sent: bool)
    | ConnectResult(verdict: Verdict, sent: bool)
    | Resumed
    | Received(hasRoute: bool)
    | Ignored
    | Disconnected
    | LambdaResult(result: Result, sent: bool)
    | DrainJoined(sent: bool)
    | HookDone(sent: bool)

  datatype DrainEvent = Start | Got(sent: bool) | Timeout | Sent

  // ---------------------------------------------------------------------
  // One session
  // ---------------------------------------------------------------------

  function NewSession(api: string, isWebSocket: bool): Session {
    Session(api, isWebSocket, AwaitConnect, NotStarted, [], false, [], None, 0, false)
  }

  /** `await send(frame)`, then suspended at `next`; a send that raises ends the handler. */
  function SendThen(s: Session, frame: Frame, sent: bool, next: Main): Session {
    if sent then s.(frames := s.frames + [frame], main := next) else s.(main := Finished, faulted := true)
  }

  /** Leaving the receive loop, normally or by an exception. */
  function TearDown(s: Session): Session {
    s.(closeEvent := true, main := Joining)
  }

  /** The main task runs to its next await; `hookRoute` tells whether a $disconnect route
      exists at this moment.  An event that does not fit the suspension point does nothing. */
  function MainStep(s: Session, e: MainEvent, hookRoute: bool): Session {
    match (s.main, e)
    case (AwaitConnect, FirstMessage(isConnect, hasRoute, sent)) =>
      if !s.isWebSocket then SendThen(s, Close(1008), sent, Refusing)
      else if !isConnect then s.(main := Finished, faulted := true)
      else if hasRoute then s.(main := Authorizing)
      else SendThen(s, Accept, sent, Accepting)
    case (Authorizing, ConnectResult(verdict, sent)) =>
      if verdict == Granted then SendThen(s, Accept, sent, Accepting)
      else if verdict == Denied then SendThen(s, Close(1008), sent, Refusing)
      else s.(main := Finished, faulted := true)
    case (Refusing, Resumed) => s.(main := Finished)
    case (Accepting, Resumed) => s.(main := Receiving, drain := Ready)
    case (Receiving, Received(hasRoute)) => if hasRoute then s.(main := Handling) else s
    case (Receiving, Disconnected) => TearDown(s)
    case (Handling, LambdaResult(result, sent)) =>
      if result == NoReply then s.(main := Receiving)
      else if result == Failed || !sent then TearDown(s)
      else s.(frames := s.frames + [Reply(result.body)], main := Replying)
    case (Replying, Resumed) => s.(main := Receiving)
    case (Joining, DrainJoined(sent)) =>
      if s.drain != Exited then s
      else if hookRoute then s.(route := Some(true), hooks := s.hooks + 1, main := Disconnecting)
      else SendThen(s.(route := Some(false)), Close(1000), sent, Closing)
    case (Disconnecting, HookDone(sent)) => SendThen(s, Close(1000), sent, Closing)
    case (Closing, Resumed) => s.(main := Finished)
    case _ => s
  }

  /** `while not close_event.is_set()` */
  function LoopHead(s: Session): Drain {
    if s.closeEvent then Exited else Getting
  }

  function DrainStep(s: Session, e: DrainEvent): Session {
    match (s.drain, e)
    case (Ready, Start) => s.(drain := LoopHead(s))
    case (Getting, Timeout) => s.(drain := LoopHead(s))
    case (Sending, Sent) => s.(drain := LoopHead(s))
    case (Getting, Got(sent)) =>
      if s.outbox == [] then s
      else
        var s' := s.(outbox := s.outbox[1..]);
        if s.outbox[0].Sentinel? || !sent then s'.(drain := Exited)
        else s'.(frames := s.frames + [Pushed(s.outbox[0].body)], drain := Sending)
    case _ => s
  }

  // ---------------------------------------------------------------------
  // The whole gateway
  // ---------------------------------------------------------------------

  /** All sessions ever opened, the ids registered in _ws_connections, and the APIs with a
      route for $disconnect. */
  datatype System = System(sessions: map<string, Session>, registry: set<string>, hookRoutes: set<string>)

  const EMPTY := System(map[], {}, {})

  datatype Verb = POST | GET | DELETE | OTHER

  datatype Event =
    | Open(id: string, api: string, isWebSocket: bool)
    | MainTask(id: string, m: MainEvent)
    | DrainTask(id: string, d: DrainEvent)
    | Call(verb: Verb, id: string, api: string, body: string)
    | Reset
    | SetHookRoute(api: string, present: bool)

  /** Whether the @connections API finds the connection. */
  predicate Found(y: System, id: string, api: string) {
    id in y.registry && id in y.sessions && y.sessions[id].api == api
  }

  function Status(y: System, verb: Verb, id: string, api: string): nat {
    if !Found(y, id, api) then 410
    else match verb
      case POST => 200
      case GET => 200
      case DELETE => 204
      case OTHER => 405
  }

  function Called(s: Session, verb: Verb, body: string): Session {
    match verb
    case POST => if body == "" then s else s.(outbox := s.outbox + [Message(body)])
    case DELETE => s.(closeEvent := true, outbox := s.outbox + [Sentinel])
    case _ => s
  }

  /** A session enters the registry when its accept has been sent and leaves it when its
      drain task has been joined. */
  function Registry(registry: set<string>, id: string, before: Session, after: Session): set<string> {
    if before.main == Accepting && after.main == Receiving then registry + {id}
    else if before.main == Joining && after.main != Joining then registry - {id}
    else registry
  }

  function Step(y: System, e: Event): System {
    match e
    case Open(id, api, isWebSocket) =>
      if id in y.sessions then y else y.(sessions := y.sessions[id := NewSession(api, isWebSocket)])
    case MainTask(id, m) =>
      if id !in y.sessions then y
      else
        var s := y.sessions[id];
        var s' := MainStep(s, m, s.api in y.hookRoutes);
        y.(sessions := y.sessions[id := s'], registry := Registry(y.registry, id, s, s'))
    case DrainTask(id, d) =>
      if id !in y.sessions then y else y.(sessions := y.sessions[id := DrainStep(y.sessions[id], d)])
    case Call(verb, id, api, body) =>
      if !Found(y, id, api) then y else y.(sessions := y.sessions[id := Called(y.sessions[id], verb, body)])
    case Reset =>
      System(map id | id in y.sessions ::
               if id in y.registry then y.sessions[id].(closeEvent := true) else y.sessions[id],
             {}, {})
    case SetHookRoute(api, present) =>
      y.(hookRoutes := if present then y.hookRoutes + {api} else y.hookRoutes - {api})
  }

  function Run(es: seq<Event>): System {
    if es == [] then EMPTY else Step(Run(es[..|es| - 1]), es[|es| - 1])
  }

  // ---------------------------------------------------------------------
  // What every step keeps
  // ---------------------------------------------------------------------

  predicate IsData(f: Frame) {
    f.Pushed? || f.Reply?
  }

  /** Accept, then any number of data frames. */
  ghost predicate Opened(frames: seq<Frame>) {
    |frames| > 0 && frames[0] == Accept && forall i :: 1 <= i < |frames| ==> IsData(frames[i])
  }

  /** Accept, data frames, and one final close. */
  ghost predicate OpenedAndClosed(frames: seq<Frame>) {
    |frames| > 1 && frames[|frames| - 1] == Close(1000) && Opened(frames[..|frames| - 1])
  }

  ghost predicate Refused(frames: seq<Frame>) {
    frames == [Close(1008)]
  }

  /** The drain task is over, or was never created. */
  predicate NotDraining(s: Session) {
    s.drain == NotStarted || s.drain == Exited
  }

  predicate InLoop(m: Main) {
    m == Receiving || m == Handling || m == Replying
  }

  ghost predicate SessionOk(s: Session, registered: bool) {
    (registered ==> InLoop(s.main) || s.main == Joining) &&
    (InLoop(s.main) ==> s.drain != NotStarted) &&
    (s.drain == NotStarted ==> !s.closeEvent && s.outbox == []) &&
    s.hooks == (if s.route == Some(true) then 1 else 0) &&
    match s.main
    case AwaitConnect => s.frames == [] && s.drain == NotStarted && s.route.None?
    case Authorizing => s.frames == [] && s.drain == NotStarted && s.route.None?
    case Refusing => Refused(s.frames) && s.drain == NotStarted && s.route.None?
    case Accepting => s.frames == [Accept] && s.drain == NotStarted && s.route.None?
    case Receiving => Opened(s.frames) && s.route.None?
    case Handling => Opened(s.frames) && s.route.None?
    case Replying => Opened(s.frames) && s.route.None?
    case Joining => Opened(s.frames) && s.closeEvent && s.drain != NotStarted && s.route.None?
    case Disconnecting => Opened(s.frames) && s.drain == Exited && s.route == Some(true)
    case Closing => OpenedAndClosed(s.frames) && s.drain == Exited && s.route.Some?
    case Finished =>
      NotDraining(s) &&
      (s.drain == NotStarted ==> s.route.None? && (Refused(s.frames) || (s.faulted && s.frames == []))) &&
      (s.drain == Exited ==>
         s.route.Some? && (OpenedAndClosed(s.frames) || (s.faulted && Opened(s.frames))))
  }

  lemma LoopOk(s: Session, e: MainEvent, hookRoute: bool, registry: set<string>, id: string)
    requires SessionOk(s, id in registry) && InLoop(s.main)
    ensures var s' := MainStep(s, e, hookRoute); SessionOk(s', id in Registry(registry, id, s, s'))
  {
  }

  lemma ClosingOk(s: Session, e: MainEvent, hookRoute: bool, registry: set<string>, id: string)
    requires SessionOk(s, id in registry)
    requires s.main == Joining || s.main == Disconnecting || s.main == Closing
    ensures var s' := MainStep(s, e, hookRoute); SessionOk(s', id in Registry(registry, id, s, s'))
  {
  }

  lemma MainStepOk(s: Session, e: MainEvent, hookRoute: bool, registry: set<string>, id: string)
    requires SessionOk(s, id in registry)
    ensures var s' := MainStep(s, e, hookRoute); SessionOk(s', id in Registry(registry, id, s, s'))
  {
    if InLoop(s.main) {
      LoopOk(s, e, hookRoute, registry, id);
    } else if s.main == Joining || s.main == Disconnecting || s.main == Closing {
      ClosingOk(s, e, hookRoute, registry, id);
    }
  }

  lemma DrainStepOk(s: Session, d: DrainEvent, registered: bool)
    requires SessionOk(s, registered)
    ensures SessionOk(DrainStep(s, d), registered)
  {
  }

  lemma CalledOk(s: Session, verb: Verb, body: string, registered: bool)
    requires SessionOk(s, registered) && registered
    ensures SessionOk(Called(s, verb, body), registered)
  {
  }

  ghost predicate SystemOk(y: System) {
    y.registry <= y.sessions.Keys &&
    forall id :: id in y.sessions ==> SessionOk(y.sessions[id], id in y.registry)
  }

  lemma StepOk(y: System, e: Event)
    requires SystemOk(y)
    ensures SystemOk(Step(y, e))
  {
    match e
    case MainTask(id, m) =>
      if id in y.sessions {
        MainStepOk(y.sessions[id], m, y.sessions[id].api in y.hookRoutes, y.registry, id);
      }
    case DrainTask(id, d) =>
      if id in y.sessions {
        DrainStepOk(y.sessions[id], d, id in y.registry);
      }
    case Call(verb, id, api, body) =>
      if Found(y, id, api) {
        CalledOk(y.sessions[id], verb, body, id in y.registry);
      }
    case _ =>
  }

  lemma {:induction false} RunOk(es: seq<Event>)
    ensures SystemOk(Run(es))
  {
    if es != [] {
      RunOk(es[..|es| - 1]);
      StepOk(Run(es[..|es| - 1]), es[|es| - 1]);
    }
  }

  /** In every run the frames on a socket form a prefix of one close, or of accept, data and
      one close; a finished session sent all of it unless it faulted; and nothing follows a close. */
  lemma FramesAreWellFormed(es: seq<Event>, id: string)
    requires id in Run(es).sessions
    ensures var s := Run(es).sessions[id];
            (s.frames == [] || Refused(s.frames) || Opened(s.frames) || OpenedAndClosed(s.frames)) &&
            (s.main == Finished && !s.faulted ==> Refused(s.frames) || OpenedAndClosed(s.frames))
  {
    RunOk(es);
  }

  /** A registered connection has been accepted and not closed. */
  lemma RegisteredIsOpen(es: seq<Event>, id: string)
    requires id in Run(es).registry
    ensures id in Run(es).sessions && Opened(Run(es).sessions[id].frames)
  {
    RunOk(es);
  }

  /** The disconnect hook runs at most once; in a finished session that was accepted it ran
      exactly if its route existed at teardown, and in one that was not, never. */
  lemma HookRunsOnce(es: seq<Event>, id: string)
    requires id in Run(es).sessions
    ensures var s := Run(es).sessions[id];
            s.hooks <= 1 &&
            (s.main == Finished && Accept in s.frames ==> s.route.Some? && s.hooks == if s.route.value then 1 else 0) &&
            (Accept !in s.frames ==> s.hooks == 0)
  {
    RunOk(es);
    var s := Run(es).sessions[id];
    assert Opened(s.frames) ==> s.frames[0] in s.frames;
    assert OpenedAndClosed(s.frames) ==> s.frames[0] == s.frames[..|s.frames| - 1][0];
  }

  // ---------------------------------------------------------------------
  // Which events open a socket
  // ---------------------------------------------------------------------

  datatype Kind = OfOpening | OfMessage | OfVerdict

  predicate IsKind(e: Event, id: string, kind: Kind) {
    match kind
    case OfOpening => e.Open? && e.id == id
    case OfMessage => e.MainTask? && e.id == id && e.m.FirstMessage?
    case OfVerdict => e.MainTask? && e.id == id && e.m.ConnectResult?
  }

  /** Position of the first event of this kind at or after `from`. */
  function FirstOf(es: seq<Event>, id: string, kind: Kind, from: nat): (r: Option<nat>)
    ensures r.None? <==> forall k :: from <= k < |es| ==> !IsKind(es[k], id, kind)
    ensures r.Some? ==> from <= r.value < |es| && IsKind(es[r.value], id, kind)
    ensures r.Some? ==> forall k :: from <= k < r.value ==> !IsKind(es[k], id, kind)
  {
    if |es| <= from then None
    else
      var front, n := es[..|es| - 1], |es| - 1;
      var r := FirstOf(front, id, kind, from);
      if r.Some? then r else if IsKind(es[n], id, kind) then Some(n) else None
  }

  /** When the connection `id` was opened, and the first message and the first verdict of the
      $connect hook that came after that. */
  function OpenedAt(es: seq<Event>, id: string): (r: Option<nat>)
    ensures r.Some? ==> r.value < |es| && es[r.value].Open?
  {
    FirstOf(es, id, OfOpening, 0)
  }

  function MessageAt(es: seq<Event>, id: string): (r: Option<nat>)
    ensures r.Some? ==> OpenedAt(es, id).Some? && r.value < |es| && es[r.value].MainTask? && es[r.value].m.FirstMessage?
  {
    var o := OpenedAt(es, id);
    if o.None? then None else FirstOf(es, id, OfMessage, o.value)
  }

  function VerdictAt(es: seq<Event>, id: string): (r: Option<nat>)
    ensures r.Some? ==> MessageAt(es, id).Some? && r.value < |es| && es[r.value].MainTask? && es[r.value].m.ConnectResult?
  {
    var m := MessageAt(es, id);
    if m.None? then None else FirstOf(es, id, OfVerdict, m.value)
  }

  predicate ForWebSocket(es: seq<Event>, id: string)
    requires OpenedAt(es, id).Some?
  {
    es[OpenedAt(es, id).value].isWebSocket
  }

  /** The first message was a connect to a WebSocket API. */
  predicate Connects(es: seq<Event>, id: string) {
    MessageAt(es, id).Some? && ForWebSocket(es, id) && es[MessageAt(es, id).value].m.isConnect
  }

  /** ... one with a $connect route, so that its hook was asked. */
  predicate HookAsked(es: seq<Event>, id: string) {
    Connects(es, id) && es[MessageAt(es, id).value].m.hasRoute
  }

  /** The accept was due, and sent: there is no $connect route, or its hook granted. */
  predicate AcceptDue(es: seq<Event>, id: string) {
    Connects(es, id) &&
    if HookAsked(es, id) then VerdictAt(es, id).Some? && es[VerdictAt(es, id).value].m == ConnectResult(Granted, true)
    else es[MessageAt(es, id).value].m.sent
  }

  /** The refusal was due, and sent: the API is not a WebSocket one, or the hook denied. */
  predicate RefusalDue(es: seq<Event>, id: string) {
    MessageAt(es, id).Some? &&
    if !ForWebSocket(es, id) then es[MessageAt(es, id).value].m.sent
    else
      HookAsked(es, id) && VerdictAt(es, id).Some? && es[VerdictAt(es, id).value].m == ConnectResult(Denied, true)
  }

  /** The session of `id` stands where the events put it. */
  ghost predicate Placed(es: seq<Event>, id: string) {
    (id in Run(es).sessions <==> OpenedAt(es, id).Some?) &&
    (id in Run(es).sessions ==>
       var s := Run(es).sessions[id];
       s.isWebSocket == ForWebSocket(es, id) &&
       (s.main == AwaitConnect <==> MessageAt(es, id).None?) &&
       (s.main == Authorizing <==> HookAsked(es, id) && VerdictAt(es, id).None?) &&
       (Accept in s.frames <==> AcceptDue(es, id)) &&
       (Close(1008) in s.frames <==> RefusalDue(es, id)))
  }

  /** An event that is none of the decisive ones moves no position, one that is sets one. */
  lemma DecisiveStep(es: seq<Event>, id: string)
    requires es != []
    ensures var n := |es| - 1; var front := es[..n];
            (OpenedAt(front, id).Some? ==> OpenedAt(es, id) == OpenedAt(front, id)) &&
            (OpenedAt(front, id).None? ==>
               OpenedAt(es, id) == (if IsKind(es[n], id, OfOpening) then Some(n) else None) && MessageAt(es, id).None?) &&
            (MessageAt(front, id).Some? ==> MessageAt(es, id) == MessageAt(front, id)) &&
            (OpenedAt(front, id).Some? && MessageAt(front, id).None? ==>
               MessageAt(es, id) == (if IsKind(es[n], id, OfMessage) then Some(n) else None) && VerdictAt(es, id).None?) &&
            (VerdictAt(front, id).Some? ==> VerdictAt(es, id) == VerdictAt(front, id)) &&
            (MessageAt(front, id).Some? && VerdictAt(front, id).None? ==>
               VerdictAt(es, id) == if IsKind(es[n], id, OfVerdict) then Some(n) else None)
  {
  }

  /** Past its opening a session never goes back, and sends neither accept nor refusal. */
  lemma PastOpening(s: Session, e: MainEvent, hookRoute: bool)
    requires s.main != AwaitConnect && s.main != Authorizing
    ensures var s' := MainStep(s, e, hookRoute);
            s'.main != AwaitConnect && s'.main != Authorizing && s'.isWebSocket == s.isWebSocket &&
            (Accept in s'.frames <==> Accept in s.frames) && (Close(1008) in s'.frames <==> Close(1008) in s.frames)
  {
  }

  lemma OtherTasks(y: System, e: Event, id: string)
    requires id in y.sessions && !(e.MainTask? && e.id == id)
    ensures id in Step(y, e).sessions
    ensures var s, s' := y.sessions[id], Step(y, e).sessions[id];
            s'.main == s.main && s'.isWebSocket == s.isWebSocket &&
            (Accept in s'.frames <==> Accept in s.frames) && (Close(1008) in s'.frames <==> Close(1008) in s.frames)
  {
  }

  lemma AwaitingStep(es: seq<Event>, id: string)
    requires es != [] && Placed(es[..|es| - 1], id) && id in Run(es[..|es| - 1]).sessions
    requires es[|es| - 1].MainTask? && es[|es| - 1].id == id
    requires Run(es[..|es| - 1]).sessions[id].main == AwaitConnect
    ensures Placed(es, id)
  {
    DecisiveStep(es, id);
    RunOk(es[..|es| - 1]);
  }

  /** What the hook's verdict does. */
  lemma Answered(s: Session, e: MainEvent, hookRoute: bool)
    requires s.main == Authorizing && s.frames == []
    ensures var s' := MainStep(s, e, hookRoute);
            s'.isWebSocket == s.isWebSocket && s'.main != AwaitConnect &&
            (s'.main == Authorizing <==> !e.ConnectResult?) &&
            (Accept in s'.frames <==> e == ConnectResult(Granted, true)) &&
            (Close(1008) in s'.frames <==> e == ConnectResult(Denied, true))
  {
  }

  lemma AskedStep(es: seq<Event>, id: string)
    requires es != [] && Placed(es[..|es| - 1], id) && id in Run(es[..|es| - 1]).sessions
    requires es[|es| - 1].MainTask? && es[|es| - 1].id == id
    requires Run(es[..|es| - 1]).sessions[id].main == Authorizing
    ensures Placed(es, id)
  {
    DecisiveStep(es, id);
    RunOk(es[..|es| - 1]);
    var y := Run(es[..|es| - 1]);
    Answered(y.sessions[id], es[|es| - 1].m, y.sessions[id].api in y.hookRoutes);
  }

  lemma OpenedStep(es: seq<Event>, id: string)
    requires es != [] && Placed(es[..|es| - 1], id) && id in Run(es[..|es| - 1]).sessions
    requires es[|es| - 1].MainTask? && es[|es| - 1].id == id
    requires var m := Run(es[..|es| - 1]).sessions[id].main; m != AwaitConnect && m != Authorizing
    ensures Placed(es, id)
  {
    var y, e := Run(es[..|es| - 1]), es[|es| - 1];
    DecisiveStep(es, id);
    PastOpening(y.sessions[id], e.m, y.sessions[id].api in y.hookRoutes);
  }

  lemma OtherStep(es: seq<Event>, id: string)
    requires es != [] && Placed(es[..|es| - 1], id)
    requires !(es[|es| - 1].MainTask? && es[|es| - 1].id == id)
    ensures Placed(es, id)
  {
    var y, e := Run(es[..|es| - 1]), es[|es| - 1];
    DecisiveStep(es, id);
    if id in y.sessions {
      OtherTasks(y, e, id);
    }
  }

  lemma {:induction false} AlwaysPlaced(es: seq<Event>, id: string)
    ensures Placed(es, id)
  {
    if es != [] {
      var front, e := es[..|es| - 1], es[|es| - 1];
      AlwaysPlaced(front, id);
      if !(e.MainTask? && e.id == id) {
        OtherStep(es, id);
      } else if id !in Run(front).sessions {
        DecisiveStep(es, id);
      } else if Run(front).sessions[id].main == AwaitConnect {
        AwaitingStep(es, id);
      } else if Run(front).sessions[id].main == Authorizing {
        AskedStep(es, id);
      } else {
        OpenedStep(es, id);
      }
    }
  }

  /** In every run a socket has been accepted exactly if its first message was a connect to a
      WebSocket API and there is no $connect route or its hook granted, and refused exactly if
      the API is not a WebSocket one or the hook denied; each with its send succeeding. */
  lemma OpeningDecided(es: seq<Event>, id: string)
    requires id in Run(es).sessions
    ensures Accept in Run(es).sessions[id].frames <==> AcceptDue(es, id)
    ensures Close(1008) in Run(es).sessions[id].frames <==> RefusalDue(es, id)
  {
    AlwaysPlaced(es, id);
  }

  // ---------------------------------------------------------------------
  // Messages from the client, and the end of the session
  // ---------------------------------------------------------------------

  predicate At(y: System, id: string, m: Main) {
    id in y.sessions && y.sessions[id].main == m
  }

  predicate Returns(e: Event, id: string) {
    e.MainTask? && e.id == id && e.m.LambdaResult?
  }

  /** Event `k` is a message that selects a route, and its Lambda has not returned since. */
  ghost predicate HandledSince(es: seq<Event>, id: string, k: nat)
    requires k < |es|
  {
    es[k] == MainTask(id, Received(true)) && At(Run(es[..k]), id, Receiving) &&
    forall j :: k < j < |es| ==> !Returns(es[j], id)
  }

  lemma HandledStep(es: seq<Event>, id: string, k: nat)
    requires k < |es| - 1
    ensures HandledSince(es, id, k) <==> HandledSince(es[..|es| - 1], id, k) && !Returns(es[|es| - 1], id)
  {
    var front := es[..|es| - 1];
    assert front[..k] == es[..k] && forall j :: 0 <= j < |front| ==> front[j] == es[j];
  }

  lemma HandlingStep(y: System, e: Event, id: string)
    ensures At(Step(y, e), id, Handling) <==>
            (At(y, id, Receiving) && e == MainTask(id, Received(true))) || (At(y, id, Handling) && !Returns(e, id))
  {
  }

  /** The session waits for a Lambda exactly between a message that selects a route and the
      return of that route's Lambda. */
  lemma {:induction false} HandlingExactly(es: seq<Event>, id: string)
    ensures At(Run(es), id, Handling) <==> exists k :: 0 <= k < |es| && HandledSince(es, id, k)
  {
    if es != [] {
      var n := |es| - 1;
      HandlingExactly(es[..n], id);
      HandlingStep(Run(es[..n]), es[n], id);
      forall k | 0 <= k < n
        ensures HandledSince(es, id, k) <==> HandledSince(es[..n], id, k) && !Returns(es[n], id)
      {
        HandledStep(es, id, k);
      }
      assert HandledSince(es, id, n) <==> es[n] == MainTask(id, Received(true)) && At(Run(es[..n]), id, Receiving);
    }
  }

  function Replies(frames: seq<Frame>): seq<string> {
    if frames == [] then []
    else Replies(frames[..|frames| - 1]) + if frames[|frames| - 1].Reply? then [frames[|frames| - 1].body] else []
  }

  /** The body that this event brings back from a route's Lambda and sends. */
  function NewlyReturned(y: System, e: Event, id: string): seq<string> {
    if At(y, id, Handling) && Returns(e, id) && e.m.result.Body? && e.m.sent then [e.m.result.body] else []
  }

  function Returned(es: seq<Event>, id: string): seq<string> {
    if es == [] then [] else Returned(es[..|es| - 1], id) + NewlyReturned(Run(es[..|es| - 1]), es[|es| - 1], id)
  }

  lemma RepliesAppend(frames: seq<Frame>, f: Frame)
    ensures Replies(frames + [f]) == Replies(frames) + if f.Reply? then [f.body] else []
  {
    assert (frames + [f])[..|frames|] == frames;
  }

  /** One reply was added, if `reply` gives one, and otherwise at most one other frame. */
  ghost predicate Adds(frames: seq<Frame>, frames': seq<Frame>, reply: Option<string>) {
    if reply.Some? then frames' == frames + [Reply(reply.value)]
    else frames' == frames || exists f: Frame :: !f.Reply? && frames' == frames + [f]
  }

  lemma AddsReplies(frames: seq<Frame>, frames': seq<Frame>, reply: Option<string>)
    requires Adds(frames, frames', reply)
    ensures Replies(frames') == Replies(frames) + if reply.Some? then [reply.value] else []
  {
    if reply.Some? {
      RepliesAppend(frames, Reply(reply.value));
    } else if frames' != frames {
      var f: Frame :| !f.Reply? && frames' == frames + [f];
      RepliesAppend(frames, f);
    }
  }

  function SentReply(s: Session, e: MainEvent): Option<string> {
    if s.main == Handling && e.LambdaResult? && e.result.Body? && e.sent then Some(e.result.body) else None
  }

  lemma MainAdds(s: Session, e: MainEvent, hookRoute: bool)
    ensures Adds(s.frames, MainStep(s, e, hookRoute).frames, SentReply(s, e))
  {
  }

  lemma DrainReplies(s: Session, d: DrainEvent)
    ensures Replies(DrainStep(s, d).frames) == Replies(s.frames)
  {
    if s.outbox != [] && s.outbox[0].Message? {
      RepliesAppend(s.frames, Pushed(s.outbox[0].body));
    }
  }

  lemma StepReplies(y: System, e: Event, id: string)
    requires id in y.sessions
    ensures id in Step(y, e).sessions
    ensures Replies(Step(y, e).sessions[id].frames) == Replies(y.sessions[id].frames) + NewlyReturned(y, e, id)
  {
    var s := y.sessions[id];
    assert Replies(s.frames) + [] == Replies(s.frames);
    if e.MainTask? && e.id == id {
      MainAdds(s, e.m, s.api in y.hookRoutes);
      AddsReplies(s.frames, Step(y, e).sessions[id].frames, SentReply(s, e.m));
    } else if e.DrainTask? && e.id == id {
      DrainReplies(s, e.d);
    }
  }

  /** The replies sent on a socket are exactly the bodies its routes' Lambdas returned, in order. */
  lemma {:induction false} RepliesAreReturned(es: seq<Event>, id: string)
    ensures if id in Run(es).sessions then Replies(Run(es).sessions[id].frames) == Returned(es, id)
            else Returned(es, id) == []
  {
    if es != [] {
      var y, e := Run(es[..|es| - 1]), es[|es| - 1];
      RepliesAreReturned(es[..|es| - 1], id);
      assert Run(es) == Step(y, e);
      if id in y.sessions {
        StepReplies(y, e, id);
      }
    }
  }

  /** Event `k` of the run is the joining of the drain task, at which the $disconnect route is
      looked up and, as `found` says, is there. */
  ghost predicate LooksUp(es: seq<Event>, id: string, k: nat, found: bool)
    requires k < |es|
  {
    At(Run(es[..k]), id, Joining) && es[k].MainTask? && es[k].id == id && es[k].m.DrainJoined? &&
    found == (Run(es[..k]).sessions[id].api in Run(es[..k]).hookRoutes)
  }

  lemma MainRoute(s: Session, e: MainEvent, hookRoute: bool)
    ensures var s' := MainStep(s, e, hookRoute);
            s'.route == s.route || (s.main == Joining && e.DrainJoined? && s'.route == Some(hookRoute))
  {
  }

  lemma RouteStep(y: System, e: Event, id: string)
    requires SystemOk(y) && id in Step(y, e).sessions && Step(y, e).sessions[id].route.Some?
    ensures id in y.sessions
    ensures var s, s' := y.sessions[id], Step(y, e).sessions[id];
            s'.route == s.route ||
            (s.main == Joining && e.MainTask? && e.id == id && e.m.DrainJoined? &&
             s'.route.value == (s.api in y.hookRoutes))
  {
    if e.MainTask? && e.id == id && id in y.sessions {
      MainRoute(y.sessions[id], e.m, y.sessions[id].api in y.hookRoutes);
    }
  }

  /** The hook runs if the $disconnect route of the session's API is there at the moment the
      drain task has been joined, and not if it is not. */
  lemma {:induction false} RouteLookedUp(es: seq<Event>, id: string)
    requires id in Run(es).sessions && Run(es).sessions[id].route.Some?
    ensures exists k :: 0 <= k < |es| && LooksUp(es, id, k, Run(es).sessions[id].route.value)
  {
    if es != [] {
      var n := |es| - 1;
      RunOk(es[..n]);
      RouteStep(Run(es[..n]), es[n], id);
      var found := Run(es).sessions[id].route.value;
      if Run(es[..n]).sessions[id].route == Run(es).sessions[id].route {
        RouteLookedUp(es[..n], id);
        var k :| 0 <= k < n && LooksUp(es[..n], id, k, found);
        assert es[..n][..k] == es[..k];
        assert LooksUp(es, id, k, found);
      } else {
        assert LooksUp(es, id, n, found);
      }
    }
  }

  /** Event `k` puts a $disconnect route on the API, and neither its removal nor a reset follows. */
  ghost predicate RoutedSince(es: seq<Event>, api: string, k: nat)
    requires k < |es|
  {
    es[k] == SetHookRoute(api, true) && forall j :: k < j < |es| ==> es[j] != SetHookRoute(api, false) && es[j] != Reset
  }

  lemma RoutedStep(es: seq<Event>, api: string, k: nat)
    requires k < |es| - 1
    ensures RoutedSince(es, api, k) <==>
            RoutedSince(es[..|es| - 1], api, k) && es[|es| - 1] != SetHookRoute(api, false) && es[|es| - 1] != Reset
  {
    var front := es[..|es| - 1];
    assert forall j :: 0 <= j < |front| ==> front[j] == es[j];
  }

  /** An API has a $disconnect route exactly from putting one until its removal or a reset. */
  lemma {:induction false} RoutesExactly(es: seq<Event>, api: string)
    ensures api in Run(es).hookRoutes <==> exists k :: 0 <= k < |es| && RoutedSince(es, api, k)
  {
    if es != [] {
      var n := |es| - 1;
      RoutesExactly(es[..n], api);
      forall k | 0 <= k < n
        ensures RoutedSince(es, api, k) <==>
                RoutedSince(es[..n], api, k) && es[n] != SetHookRoute(api, false) && es[n] != Reset
      {
        RoutedStep(es, api, k);
      }
      assert RoutedSince(es, api, n) <==> es[n] == SetHookRoute(api, true);
    }
  }

  /** Event `k` ends the accept of `id`; no reset has followed. */
  ghost predicate EntersUnreset(es: seq<Event>, id: string, k: nat)
    requires k < |es|
  {
    At(Run(es[..k]), id, Accepting) && es[k] == MainTask(id, Resumed) && forall j :: k < j < |es| ==> es[j] != Reset
  }

  lemma EntersStep(es: seq<Event>, id: string, k: nat)
    requires k < |es| - 1
    ensures EntersUnreset(es, id, k) <==> EntersUnreset(es[..|es| - 1], id, k) && es[|es| - 1] != Reset
  {
    var front := es[..|es| - 1];
    assert front[..k] == es[..k] && forall j :: 0 <= j < |front| ==> front[j] == es[j];
  }

  predicate Registrable(y: System, id: string) {
    id in y.sessions && (InLoop(y.sessions[id].main) || y.sessions[id].main == Joining)
  }

  lemma MainRegistry(s: Session, e: MainEvent, hookRoute: bool, registry: set<string>, id: string)
    requires SessionOk(s, id in registry)
    ensures var s' := MainStep(s, e, hookRoute); var m := s'.main;
            (id in Registry(registry, id, s, s') <==>
               (s.main == Accepting && e == Resumed) || (id in registry && (InLoop(m) || m == Joining))) &&
            (s.main == Accepting && e == Resumed ==> InLoop(m)) &&
            (InLoop(m) || m == Joining ==> InLoop(s.main) || s.main == Joining || (s.main == Accepting && e == Resumed))
  {
  }

  lemma RegistryStep(y: System, e: Event, id: string)
    requires SystemOk(y)
    ensures id in Step(y, e).registry <==>
            (At(y, id, Accepting) && e == MainTask(id, Resumed)) ||
            (id in y.registry && e != Reset && Registrable(Step(y, e), id))
    ensures At(y, id, Accepting) && e == MainTask(id, Resumed) ==> Registrable(Step(y, e), id)
    ensures Registrable(Step(y, e), id) ==>
              Registrable(y, id) || (At(y, id, Accepting) && e == MainTask(id, Resumed))
  {
    if e.MainTask? && e.id in y.sessions {
      MainRegistry(y.sessions[e.id], e.m, y.sessions[e.id].api in y.hookRoutes, y.registry, e.id);
    }
  }

  /** A connection is registered exactly from the end of its accept until its drain task has
      been joined, or a reset. */
  lemma {:induction false} RegisteredExactly(es: seq<Event>, id: string)
    ensures id in Run(es).registry <==>
            Registrable(Run(es), id) && exists k :: 0 <= k < |es| && EntersUnreset(es, id, k)
  {
    if es != [] {
      var n := |es| - 1;
      RunOk(es[..n]);
      RegisteredExactly(es[..n], id);
      RegistryStep(Run(es[..n]), es[n], id);
      forall k | 0 <= k < n
        ensures EntersUnreset(es, id, k) <==> EntersUnreset(es[..n], id, k) && es[n] != Reset
      {
        EntersStep(es, id, k);
      }
      assert EntersUnreset(es, id, n) <==> At(Run(es[..n]), id, Accepting) && es[n] == MainTask(id, Resumed);
    }
  }

  // ---------------------------------------------------------------------
  // What stops a drain task, and what is a fault
  // ---------------------------------------------------------------------

  /** The receive loop ends: the client is gone, the Lambda raised, or its reply was not sent. */
  predicate Leaves(m: Main, e: MainEvent) {
    (m == Receiving && e == Disconnected) ||
    (m == Handling && e.LambdaResult? && (e.result == Failed || (e.result.Body? && !e.sent)))
  }

  /** The event tells the drain task of `id` to stop: a DELETE that finds the connection, a reset
      while it is registered, or the end of its receive loop. */
  predicate Tells(y: System, e: Event, id: string) {
    id in y.sessions &&
    match e
    case Call(verb, id', api, _) => verb == DELETE && id' == id && Found(y, id, api)
    case Reset => id in y.registry
    case MainTask(id', m) => id' == id && Leaves(y.sessions[id].main, m)
    case _ => false
  }

  /** The drain task takes a message and cannot send it. */
  predicate PushFails(y: System, e: Event, id: string) {
    id in y.sessions && e == DrainTask(id, Got(false)) && y.sessions[id].drain == Getting && y.sessions[id].outbox != []
  }

  /** A send of the opening or the final close raises, the hook raises, or the first message to a
      WebSocket API is no connect. */
  predicate Fault(s: Session, e: MainEvent, hookRoute: bool) {
    match e
    case FirstMessage(isConnect, hasRoute, sent) =>
      s.main == AwaitConnect &&
      (if s.isWebSocket then !isConnect || (!hasRoute && !sent) else !sent)
    case ConnectResult(verdict, sent) => s.main == Authorizing && (verdict == Raised || !sent)
    case DrainJoined(sent) => s.main == Joining && s.drain == Exited && !hookRoute && !sent
    case HookDone(sent) => s.main == Disconnecting && !sent
    case _ => false
  }

  predicate Faults(y: System, e: Event, id: string) {
    id in y.sessions && e.MainTask? && e.id == id && Fault(y.sessions[id], e.m, y.sessions[id].api in y.hookRoutes)
  }

  lemma MainFlags(s: Session, e: MainEvent, hookRoute: bool)
    ensures var s' := MainStep(s, e, hookRoute);
            (s'.closeEvent <==> s.closeEvent || Leaves(s.main, e)) && s'.outbox == s.outbox &&
            (s'.drain == Exited ==> s.drain == Exited) && (s.main != Accepting ==> s'.drain == s.drain)
  {
  }

  lemma ToldStep(y: System, e: Event, id: string)
    ensures id in Step(y, e).sessions && Step(y, e).sessions[id].closeEvent <==>
            (id in y.sessions && y.sessions[id].closeEvent) || Tells(y, e, id)
  {
    if e.MainTask? && id in y.sessions {
      MainFlags(y.sessions[id], e.m, y.sessions[id].api in y.hookRoutes);
    }
  }

  lemma MainFaults(s: Session, e: MainEvent, hookRoute: bool)
    ensures MainStep(s, e, hookRoute).faulted <==> s.faulted || Fault(s, e, hookRoute)
  {
  }

  lemma DrainEnds(s: Session, d: DrainEvent)
    ensures var s' := DrainStep(s, d);
            s'.closeEvent == s.closeEvent && (Sentinel in s'.outbox ==> Sentinel in s.outbox) &&
            (s.drain == Exited || (d == Got(false) && s.drain == Getting && s.outbox != []) ==> s'.drain == Exited) &&
            (s'.drain == Exited ==>
               s.drain == Exited || s.closeEvent || Sentinel in s.outbox ||
               (d == Got(false) && s.drain == Getting && s.outbox != []))
  {
  }

  lemma FaultStep(y: System, e: Event, id: string)
    ensures id in Step(y, e).sessions && Step(y, e).sessions[id].faulted <==>
            (id in y.sessions && y.sessions[id].faulted) || Faults(y, e, id)
  {
    if e.MainTask? && id in y.sessions {
      MainFaults(y.sessions[id], e.m, y.sessions[id].api in y.hookRoutes);
    }
  }

  predicate Over(y: System, id: string) {
    id in y.sessions && y.sessions[id].drain == Exited
  }

  /** A sentinel is only ever queued together with setting the close event. */
  ghost predicate SentinelMeansStop(y: System, id: string) {
    id in y.sessions && Sentinel in y.sessions[id].outbox ==> y.sessions[id].closeEvent
  }

  lemma ExitStep(y: System, e: Event, id: string)
    requires SystemOk(y) && SentinelMeansStop(y, id)
    ensures SentinelMeansStop(Step(y, e), id)
    ensures Over(y, id) || PushFails(y, e, id) ==> Over(Step(y, e), id)
    ensures Over(Step(y, e), id) ==> Over(y, id) || PushFails(y, e, id) || Step(y, e).sessions[id].closeEvent
  {
    if e.MainTask? && id in y.sessions {
      MainFlags(y.sessions[id], e.m, y.sessions[id].api in y.hookRoutes);
    }
    if e.DrainTask? && id in y.sessions {
      DrainEnds(y.sessions[id], e.d);
    }
  }

  ghost predicate ToldAt(es: seq<Event>, id: string, k: nat)
    requires k < |es|
  {
    Tells(Run(es[..k]), es[k], id)
  }

  ghost predicate FailedAt(es: seq<Event>, id: string, k: nat)
    requires k < |es|
  {
    PushFails(Run(es[..k]), es[k], id)
  }

  ghost predicate FaultedAt(es: seq<Event>, id: string, k: nat)
    requires k < |es|
  {
    Faults(Run(es[..k]), es[k], id)
  }
  lemma EarlierEvents(es: seq<Event>, id: string, k: nat)
    requires k < |es| - 1
    ensures ToldAt(es, id, k) <==> ToldAt(es[..|es| - 1], id, k)
    ensures FailedAt(es, id, k) <==> FailedAt(es[..|es| - 1], id, k)
    ensures FaultedAt(es, id, k) <==> FaultedAt(es[..|es| - 1], id, k)
  {
    assert es[..|es| - 1][..k] == es[..k];
  }

  /** A close event is set exactly if something told the drain task to stop. */
  lemma {:induction false} StopsExactly(es: seq<Event>, id: string)
    ensures id in Run(es).sessions && Run(es).sessions[id].closeEvent <==> exists k :: 0 <= k < |es| && ToldAt(es, id, k)
  {
    if es != [] {
      var n := |es| - 1;
      StopsExactly(es[..n], id);
      ToldStep(Run(es[..n]), es[n], id);
      forall k | 0 <= k < n
        ensures ToldAt(es, id, k) <==> ToldAt(es[..n], id, k)
      {
        EarlierEvents(es, id, k);
      }
      assert ToldAt(es, id, n) <==> Tells(Run(es[..n]), es[n], id);
    }
  }

  /** A session has faulted exactly if one of its events was a fault. */
  lemma {:induction false} FaultsExactly(es: seq<Event>, id: string)
    ensures id in Run(es).sessions && Run(es).sessions[id].faulted <==> exists k :: 0 <= k < |es| && FaultedAt(es, id, k)
  {
    if es != [] {
      var n := |es| - 1;
      FaultsExactly(es[..n], id);
      FaultStep(Run(es[..n]), es[n], id);
      forall k | 0 <= k < n
        ensures FaultedAt(es, id, k) <==> FaultedAt(es[..n], id, k)
      {
        EarlierEvents(es, id, k);
      }
      assert FaultedAt(es, id, n) <==> Faults(Run(es[..n]), es[n], id);
    }
  }

  /** A push that could not be sent ends the drain task; otherwise it ends only once it has been
      told to stop. */
  lemma {:induction false} DrainEndsOnlyIf(es: seq<Event>, id: string)
    ensures (exists k :: 0 <= k < |es| && FailedAt(es, id, k)) ==> Over(Run(es), id)
    ensures Over(Run(es), id) ==> Run(es).sessions[id].closeEvent || exists k :: 0 <= k < |es| && FailedAt(es, id, k)
    ensures SentinelMeansStop(Run(es), id)
  {
    if es != [] {
      var n := |es| - 1;
      var y := Run(es[..n]);
      DrainEndsOnlyIf(es[..n], id);
      RunOk(es[..n]);
      ExitStep(y, es[n], id);
      ToldStep(y, es[n], id);
      forall k | 0 <= k < n
        ensures FailedAt(es, id, k) <==> FailedAt(es[..n], id, k)
      {
        EarlierEvents(es, id, k);
      }
      assert FailedAt(es, id, n) <==> PushFails(y, es[n], id);
    }
  }

  // ---------------------------------------------------------------------
  // Messages
  // ---------------------------------------------------------------------

  function Pushes(frames: seq<Frame>): seq<string> {
    if frames == [] then []
    else if frames[|frames| - 1].Pushed? then Pushes(frames[..|frames| - 1]) + [frames[|frames| - 1].body]
    else Pushes(frames[..|frames| - 1])
  }

  function Bodies(outbox: seq<Item>): seq<string> {
    if outbox == [] then [] else (if outbox[0].Message? then [outbox[0].body] else []) + Bodies(outbox[1..])
  }

  lemma {:induction false} BodiesAppend(outbox: seq<Item>, i: Item)
    ensures Bodies(outbox + [i]) == Bodies(outbox) + if i.Message? then [i.body] else []
  {
    if outbox == [] {
      assert [i][1..] == [];
    } else {
      var first := if outbox[0].Message? then [outbox[0].body] else [];
      assert (outbox + [i])[1..] == outbox[1..] + [i];
      BodiesAppend(outbox[1..], i);
      assert Bodies(outbox + [i]) == first + Bodies(outbox[1..] + [i]);
    }
  }

  /** The body that this event posts to the connection, if any. */
  function NewlyPosted(y: System, e: Event, id: string): seq<string> {
    if e.Call? && e.verb == POST && e.id == id && Status(y, POST, id, e.api) == 200 && e.body != "" then [e.body]
    else []
  }

  /** The non-empty bodies that POST calls for this connection answered with 200, in order. */
  function Posted(es: seq<Event>, id: string): seq<string> {
    if es == [] then [] else Posted(es[..|es| - 1], id) + NewlyPosted(Run(es[..|es| - 1]), es[|es| - 1], id)
  }

  /** What was pushed is a prefix of what was posted; until the drain task ends, the rest
      waits in the outbox. */
  ghost predicate InOrder(s: Session, posted: seq<string>) {
    Pushes(s.frames) <= posted &&
    (s.drain != Exited ==> posted == Pushes(s.frames) + Bodies(s.outbox))
  }

  /** The main task adds at most one frame, and never one from the outbox. */
  lemma MainAddsFrame(s: Session, e: MainEvent, hookRoute: bool)
    ensures var s' := MainStep(s, e, hookRoute);
            s'.frames == s.frames ||
            exists f: Frame :: !f.Pushed? && s'.frames == s.frames + [f]
  {
  }

  lemma MainKeepsPushes(s: Session, e: MainEvent, hookRoute: bool)
    ensures Pushes(MainStep(s, e, hookRoute).frames) == Pushes(s.frames)
  {
    MainAddsFrame(s, e, hookRoute);
  }

  lemma MainKeepsOutbox(s: Session, e: MainEvent, hookRoute: bool, registered: bool)
    requires SessionOk(s, registered)
    ensures var s' := MainStep(s, e, hookRoute);
            s'.outbox == s.outbox && (s'.drain == s.drain || (s'.drain == Ready && s.drain == NotStarted))
  {
  }

  lemma DrainKeepsOrder(s: Session, d: DrainEvent, posted: seq<string>)
    requires InOrder(s, posted)
    ensures InOrder(DrainStep(s, d), posted)
  {
    if s.drain == Getting && d.Got? && s.outbox != [] {
      var rest := Bodies(s.outbox[1..]);
      if s.outbox[0].Message? {
        var body := s.outbox[0].body;
        assert Pushes(s.frames) + ([body] + rest) == Pushes(s.frames) + [body] + rest;
      }
    }
  }

  lemma CallKeepsOrder(s: Session, verb: Verb, body: string, posted: seq<string>)
    requires InOrder(s, posted)
    ensures InOrder(Called(s, verb, body), posted + if verb == POST && body != "" then [body] else [])
  {
    BodiesAppend(s.outbox, Message(body));
    BodiesAppend(s.outbox, Sentinel);
    assert posted + [] == posted;
  }

  lemma StepKeepsOrder(y: System, e: Event, id: string, posted: seq<string>)
    requires SystemOk(y) && id in y.sessions && InOrder(y.sessions[id], posted)
    ensures InOrder(Step(y, e).sessions[id], posted + NewlyPosted(y, e, id))
  {
    var s := y.sessions[id];
    assert posted + [] == posted;
    match e
    case MainTask(k, m) =>
      if k == id {
        MainKeepsPushes(s, m, s.api in y.hookRoutes);
        MainKeepsOutbox(s, m, s.api in y.hookRoutes, id in y.registry);
      }
    case DrainTask(k, d) => DrainKeepsOrder(s, d, posted);
    case Call(verb, k, api, body) => CallKeepsOrder(s, verb, body, posted);
    case _ =>
  }

  lemma KnownStays(y: System, e: Event, id: string)
    requires id in y.sessions
    ensures id in Step(y, e).sessions
  {
  }

  /** Under every interleaving, the outbox messages sent on a socket are a prefix of the
      messages posted to that connection: in order, none lost in between, none duplicated and
      none from another connection. */
  lemma {:induction false} PushedIsPrefixOfPosted(es: seq<Event>, id: string)
    ensures if id in Run(es).sessions then InOrder(Run(es).sessions[id], Posted(es, id)) else Posted(es, id) == []
  {
    if es != [] {
      var front, e := es[..|es| - 1], es[|es| - 1];
      var y, posted := Run(front), Posted(front, id);
      assert Run(es) == Step(y, e) && Posted(es, id) == posted + NewlyPosted(y, e, id);
      PushedIsPrefixOfPosted(front, id);
      RunOk(front);
      if id in y.sessions {
        KnownStays(y, e, id);
        StepKeepsOrder(y, e, id, posted);
      }
    }
  }

  // ---------------------------------------------------------------------
  // Shutting down
  // ---------------------------------------------------------------------

  /** Steps the drain task may still take once the close event is set. */
  function StepsLeft(d: Drain): nat {
    match d
    case NotStarted => 3
    case Ready => 1
    case Getting => 2
    case Sending => 1
    case Exited => 0
  }

  /** Messages the drain task may still send once the close event is set. */
  function SendsLeft(d: Drain): nat {
    if d == Getting then 1 else 0
  }

  /** Whether the drain task of `id` takes this step. */
  predicate DrainMoves(y: System, e: Event, id: string) {
    e.DrainTask? && e.id == id && id in y.sessions && DrainStep(y.sessions[id], e.d) != y.sessions[id]
  }

  function DrainMovesIn(es: seq<Event>, from: nat, id: string): nat
    requires from <= |es|
  {
    if from == |es| then 0
    else DrainMovesIn(es[..|es| - 1], from, id) + if DrainMoves(Run(es[..|es| - 1]), es[|es| - 1], id) then 1 else 0
  }

  /** Progress of a told-to-stop drain task over one step, in which it `moved` or not. */
  ghost predicate Winding(s: Session, s': Session, moved: bool) {
    s'.closeEvent &&
    |Pushes(s'.frames)| + SendsLeft(s'.drain) <= |Pushes(s.frames)| + SendsLeft(s.drain) &&
    StepsLeft(s'.drain) + (if moved then 1 else 0) <= StepsLeft(s.drain)
  }

  lemma ClosedMain(s: Session, e: MainEvent, hookRoute: bool, registered: bool)
    requires SessionOk(s, registered) && s.closeEvent
    ensures Winding(s, MainStep(s, e, hookRoute), false)
  {
    MainKeepsPushes(s, e, hookRoute);
    MainKeepsOutbox(s, e, hookRoute, registered);
  }

  lemma ClosedDrain(s: Session, d: DrainEvent)
    requires s.closeEvent
    ensures Winding(s, DrainStep(s, d), DrainStep(s, d) != s)
  {
  }

  lemma ClosedStep(y: System, e: Event, id: string)
    requires SystemOk(y) && id in y.sessions && y.sessions[id].closeEvent
    ensures id in Step(y, e).sessions
    ensures Winding(y.sessions[id], Step(y, e).sessions[id], DrainMoves(y, e, id))
  {
    var s := y.sessions[id];
    match e
    case MainTask(k, m) => ClosedMain(s, m, s.api in y.hookRoutes, id in y.registry);
    case DrainTask(k, d) => ClosedDrain(s, d);
    case _ =>
  }

  /** Once a connection's close event is set, whatever else happens its drain task sends at
      most one more outbox message and takes at most two more steps. */
  lemma {:induction false} ClosedDrainStops(es: seq<Event>, from: nat, id: string)
    requires from <= |es| && id in Run(es[..from]).sessions && Run(es[..from]).sessions[id].closeEvent
    ensures id in Run(es).sessions && Run(es).sessions[id].closeEvent
    ensures var s, s' := Run(es[..from]).sessions[id], Run(es).sessions[id];
            |Pushes(s'.frames)| + SendsLeft(s'.drain) <= |Pushes(s.frames)| + SendsLeft(s.drain) <= |Pushes(s.frames)| + 1 &&
            DrainMovesIn(es, from, id) + StepsLeft(s'.drain) <= StepsLeft(s.drain) <= 2
    decreases |es|
  {
    RunOk(es[..from]);
    if from == |es| {
      assert es[..from] == es;
    } else {
      var front, e := es[..|es| - 1], es[|es| - 1];
      assert front[..from] == es[..from];
      ClosedDrainStops(front, from, id);
      RunOk(front);
      ClosedStep(Run(front), e, id);
    }
  }

  /** A drain task that has been told to stop is never stuck: until it has exited, one of its
      steps is possible. */
  lemma ClosedDrainCanStep(es: seq<Event>, id: string)
    requires id in Run(es).sessions && Run(es).sessions[id].closeEvent && Run(es).sessions[id].drain != Exited
    ensures exists d :: DrainMoves(Run(es), DrainTask(id, d), id)
  {
    RunOk(es);
    var s := Run(es).sessions[id];
    var d := if s.drain == Ready then Start else if s.drain == Getting then Timeout else Sent;
    assert DrainStep(s, d).drain != s.drain;
    assert DrainMoves(Run(es), DrainTask(id, d), id);
  }

  // ---------------------------------------------------------------------
  // What ends a session, and what does not
  // ---------------------------------------------------------------------

  /** The receive loop ends: the client disconnects, or a route's Lambda raises, or sending its
      reply does. */
  predicate Ends(s: Session, m: MainEvent) {
    (s.main == Receiving && m.Disconnected?) ||
    (s.main == Handling && m.LambdaResult? && m.result != NoReply && (m.result == Failed || !m.sent))
  }

  /** The receive loop of `id` ends with this event. */
  predicate EndsLoop(y: System, e: Event, id: string) {
    e.MainTask? && e.id == id && id in y.sessions && Ends(y.sessions[id], e.m)
  }

  predicate Looping(y: System, id: string) {
    id in y.sessions && InLoop(y.sessions[id].main)
  }

  predicate LoopOver(m: Main) {
    m == Joining || m == Disconnecting || m == Closing || m == Finished
  }

  predicate Past(y: System, id: string) {
    id in y.sessions && LoopOver(y.sessions[id].main)
  }

  lemma LoopStepAt(es: seq<Event>, id: string)
    requires es != []
    ensures var y, e := Run(es[..|es| - 1]), es[|es| - 1];
            (Looping(y, id) ==> if EndsLoop(y, e, id) then Past(Run(es), id) else Looping(Run(es), id)) &&
            (Past(y, id) ==> Past(Run(es), id)) && !(Looping(y, id) && Past(y, id))
  {
    LoopStep(Run(es[..|es| - 1]), es[|es| - 1], id);
  }

  lemma LoopStep(y: System, e: Event, id: string)
    ensures Looping(y, id) ==> if EndsLoop(y, e, id) then Past(Step(y, e), id) else Looping(Step(y, e), id)
    ensures Past(y, id) ==> Past(Step(y, e), id)
  {
  }

  /** No event from `from` on has ended the receive loop of `id`. */
  ghost predicate Undisturbed(es: seq<Event>, from: nat, id: string) {
    forall k :: from <= k < |es| ==> !EndsAt(es, k, id)
  }

  predicate EndsAt(es: seq<Event>, k: nat, id: string)
    requires k < |es|
  {
    EndsLoop(Run(es[..k]), es[k], id)
  }

  lemma UndisturbedStep(es: seq<Event>, from: nat, id: string)
    requires from < |es|
    ensures var n := |es| - 1;
            Undisturbed(es, from, id) <==> Undisturbed(es[..n], from, id) && !EndsLoop(Run(es[..n]), es[n], id)
  {
    var n := |es| - 1;
    forall k | 0 <= k < n
      ensures EndsAt(es, k, id) == EndsAt(es[..n], k, id)
    {
      assert es[..n][..k] == es[..k];
    }
    assert EndsAt(es, n, id) == EndsLoop(Run(es[..n]), es[n], id);
  }

  lemma {:induction false} LoopRuns(es: seq<Event>, from: nat, id: string)
    requires from <= |es| && Looping(Run(es[..from]), id)
    ensures if Undisturbed(es, from, id) then Looping(Run(es), id) else Past(Run(es), id)
    decreases |es|
  {
    if from == |es| {
      assert es[..from] == es;
    } else {
      var front := es[..|es| - 1];
      assert front[..from] == es[..from];
      LoopRuns(front, from, id);
      LoopStepAt(es, id);
      UndisturbedStep(es, from, id);
    }
  }

  /** Whatever is posted, deleted or reset, a receive loop is still running exactly if none of
      its own events has ended it; and while it runs no close has been sent on the socket. */
  lemma LoopEndsExactly(es: seq<Event>, from: nat, id: string)
    requires from <= |es| && Looping(Run(es[..from]), id)
    ensures Looping(Run(es), id) <==> Undisturbed(es, from, id)
    ensures Looping(Run(es), id) ==> Opened(Run(es).sessions[id].frames)
  {
    LoopRuns(es, from, id);
    NotBoth(Run(es), id);
    LoopingIsOpen(es, id);
  }

  lemma NotBoth(y: System, id: string)
    ensures !(Looping(y, id) && Past(y, id))
  {
  }

  lemma LoopingIsOpen(es: seq<Event>, id: string)
    ensures Looping(Run(es), id) ==> Opened(Run(es).sessions[id].frames)
  {
    RunOk(es);
  }

  /** After DeleteConnection, whatever follows, at most one more message is pushed; but the
      socket stays open for as long as no event of its own ends the receive loop. */
  lemma DeleteStopsOnlyTheDrain(es: seq<Event>, from: nat, id: string, api: string, body: string)
    requires from < |es| && es[from] == Call(DELETE, id, api, body) && Found(Run(es[..from]), id, api)
    ensures id in Run(es).sessions
    ensures var s, t := Run(es[..from]).sessions[id], Run(es).sessions[id];
            |Pushes(t.frames)| <= |Pushes(s.frames)| + 1 &&
            (InLoop(s.main) ==> (InLoop(t.main) <==> Undisturbed(es, from + 1, id))) &&
            (InLoop(t.main) ==> Opened(t.frames))
  {
    assert es[..from + 1][..from] == es[..from];
    RunOk(es);
    ClosedDrainStops(es, from + 1, id);
    if InLoop(Run(es[..from]).sessions[id].main) {
      LoopEndsExactly(es, from + 1, id);
    }
  }

  /** After reset, whatever follows, at most one more message is pushed on a connection that was
      open and no call finds it again; but its socket, too, stays open for as long as no event
      of its own ends the receive loop. */
  lemma ResetStopsAllDrains(es: seq<Event>, from: nat, id: string)
    requires from < |es| && es[from] == Reset && id in Run(es[..from]).registry
    ensures id in Run(es[..from]).sessions && id in Run(es).sessions && id !in Run(es).registry
    ensures var s, t := Run(es[..from]).sessions[id], Run(es).sessions[id];
            |Pushes(t.frames)| <= |Pushes(s.frames)| + 1 &&
            (InLoop(s.main) ==> (InLoop(t.main) <==> Undisturbed(es, from + 1, id))) &&
            (InLoop(t.main) ==> Opened(t.frames))
  {
    assert es[..from + 1][..from] == es[..from];
    RunOk(es[..from]);
    RunOk(es);
    ClosedDrainStops(es, from + 1, id);
    NeverFoundAgain(es, from + 1, id);
    if InLoop(Run(es[..from]).sessions[id].main) {
      LoopEndsExactly(es, from + 1, id);
    }
  }

  /** A session that is past its opening and not registered never becomes registered again. */
  lemma {:induction false} NeverFoundAgain(es: seq<Event>, from: nat, id: string)
    requires from <= |es| && id !in Run(es[..from]).registry
    requires Looping(Run(es[..from]), id) || Past(Run(es[..from]), id)
    ensures id !in Run(es).registry && (Looping(Run(es), id) || Past(Run(es), id))
    decreases |es|
  {
    if from == |es| {
      assert es[..from] == es;
    } else {
      var front := es[..|es| - 1];
      assert front[..from] == es[..from];
      NeverFoundAgain(front, from, id);
      LoopStepAt(es, id);
    }
  }

  lemma ExitedStep(y: System, e: Event, id: string)
    requires SystemOk(y) && id in y.sessions && y.sessions[id].drain == Exited
    ensures id in Step(y, e).sessions
    ensures var s, s' := y.sessions[id], Step(y, e).sessions[id];
            s'.drain == Exited && Pushes(s'.frames) == Pushes(s.frames)
  {
    if e.MainTask? && e.id == id {
      MainKeepsPushes(y.sessions[id], e.m, y.sessions[id].api in y.hookRoutes);
      MainKeepsOutbox(y.sessions[id], e.m, y.sessions[id].api in y.hookRoutes, id in y.registry);
    }
  }

  /** Once the drain task has exited nothing more is ever pushed; yet a message posted to the
      connection is acknowledged with 200 for as long as the connection is registered, and lost. */
  lemma {:induction false} PostsAfterExitAreLost(es: seq<Event>, from: nat, id: string)
    requires from <= |es| && id in Run(es[..from]).sessions && Run(es[..from]).sessions[id].drain == Exited
    ensures id in Run(es).sessions
    ensures Pushes(Run(es).sessions[id].frames) == Pushes(Run(es[..from]).sessions[id].frames)
    ensures Run(es).sessions[id].drain == Exited
    ensures Status(Run(es), POST, id, Run(es).sessions[id].api) == if id in Run(es).registry then 200 else 410
    decreases |es|
  {
    if from == |es| {
      assert es[..from] == es;
    } else {
      var front := es[..|es| - 1];
      assert front[..from] == es[..from];
      PostsAfterExitAreLost(front, from, id);
      RunOk(front);
      ExitedStep(Run(front), es[|es| - 1], id);
    }
  }

  // ---------------------------------------------------------------------
  // The connections API and reset
  // ---------------------------------------------------------------------

  class Gateway {
    var sessions: map<string, Session>
    var registry: set<string>
    var hookRoutes: set<string>

    function Contents(): System
      reads this
    {
      System(sessions, registry, hookRoutes)
    }

    /** What every step keeps of every session. */
    ghost predicate Valid()
      reads this
    {
      SystemOk(Contents())
    }

    method HandleConnectionsApi(verb: Verb, id: string, api: string, body: string) returns (status: nat)
      requires Valid()
      modifies this
      ensures Valid()
      ensures status == Status(old(Contents()), verb, id, api)
      ensures id !in old(registry) || id !in old(sessions) || old(sessions)[id].api != api ==> status == 410
      ensures id in old(registry) && id in old(sessions) && old(sessions)[id].api == api ==>
                status == if verb == DELETE then 204 else if verb == OTHER then 405 else 200
      ensures Contents() == Step(old(Contents()), Call(verb, id, api, body))
    {
      StepOk(Contents(), Call(verb, id, api, body));
      if id !in registry || id !in sessions || sessions[id].api != api {
        return 410;
      }
      var conn := sessions[id];
      if verb == POST {
        if body != "" {
          conn := conn.(outbox := conn.outbox + [Message(body)]);
        }
        status := 200;
      } else if verb == GET {
        status := 200;
      } else if verb == DELETE {
        conn := conn.(closeEvent := true);
        conn := conn.(outbox := conn.outbox + [Sentinel]);
        status := 204;
      } else {
        status := 405;
      }
      sessions := sessions[id := conn];
    }

    method Reset()
      requires Valid()
      modifies this
      ensures Valid()
      ensures Contents() == Step(old(Contents()), Event.Reset)
    {
      ghost var before := Contents();
      hookRoutes := {};
      var pending := registry;
      while pending != {}
        invariant pending <= registry == old(registry) && hookRoutes == {} && registry <= sessions.Keys
        invariant sessions.Keys == old(sessions).Keys
        invariant forall id :: id in sessions ==>
          sessions[id] == if id in registry - pending then old(sessions)[id].(closeEvent := true) else old(sessions)[id]
        decreases |pending|
      {
        var id :| id in pending;
        sessions := sessions[id := sessions[id].(closeEvent := true)];
        pending := pending - {id};
      }
      registry := {};
      assert Contents() == Step(before, Event.Reset);
      StepOk(before, Event.Reset);
    }
  }
}
