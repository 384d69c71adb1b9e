/** The connection lifecycle of `NATSWebSocketClient` (src/websocket-client.ts): every
    public call, socket event and timer expiry is a pure transition of an immutable state,
    recording what the client sends and hands to its callbacks. */
module Connection {
  import opened Wrappers
  import opened Strings
  import opened JsNumber
  import Framing

  /** The `ws` field: no socket, or the `readyState` of the one it holds. */
  datatype SocketState = NoSocket | Connecting | Open | Closed

  /** `timer` is the `reconnectTimer` field, the handle of the last timeout it was set to
      (a handle stays set after its timeout ran, as in the source); `pending` are the
      reconnect timeouts the runtime will still run, `nextTimerId` the next handle. */
  datatype Conn = Conn(
    isConnecting: bool,
    socket: SocketState,
    timer: Option<nat>,
    pending: set<nat>,
    nextTimerId: nat,
    sidCounter: nat,
    subscriptions: map<string, nat>,
    buffer: string)

  /** The three protocol commands the client writes. */
  datatype Command = ConnectCmd(options: string) | SubCmd(subject: string, sid: nat) | PongCmd

  /** Observable effects: a command handed to `ws.send`, a message handed to `onMessage`, a
      call of `onError`, and `ws.close()`. */
  datatype Effect<J> = Send(cmd: Command) | Deliver(msg: Framing.NatsMessage<J>) | ReportError | CloseSocket

  /** The new state, the effects in order, and the subscription ids handed out. */
  datatype Transition<J> = Transition(state: Conn, effects: seq<Effect<J>>, issued: seq<nat>)

  /** A freshly constructed client. */
  const Initial: Conn := Conn(false, NoSocket, None, {}, 0, 1, map[], "")

  /** The subjects `subscribeToSubjects` subscribes to. */
  const Subjects: seq<string> := ["advancedNewCoinCreated"]

  /** What the transitions depend on besides the state: `JSON.parse`, the serialized
      CONNECT options, the subjects to subscribe to, and whether an `onError` was given. */
  datatype Env<J> = Env(parse: string -> Option<J>, options: string, subjects: seq<string>, hasOnError: bool)

  /** `connect`: ignored while connecting or open; otherwise a new socket is opened and the
      buffer emptied. Subscription ids and the timer are left alone. */
  function Connect(s: Conn): (r: Conn)
    ensures s.isConnecting || s.socket == Open ==> r == s
    ensures !(s.isConnecting || s.socket == Open) ==>
              r == s.(isConnecting := true, socket := Connecting, buffer := "")
  {
    if s.isConnecting || s.socket == Open then s
    else s.(isConnecting := true, buffer := "", socket := Connecting)
  }

  /** `sendRaw`: the text goes out only on an open socket. */
  function SendRaw<J>(s: Conn, cmd: Command): (effects: seq<Effect<J>>)
    ensures s.socket == Open <==> effects == [Send(cmd)]
    ensures s.socket != Open <==> effects == []
  {
    if s.socket == Open then [Send(cmd)] else []
  }

  /** `clearReconnectTimer`: cancels the timeout the handle refers to and forgets the handle. */
  function ClearTimer(s: Conn): (r: Conn)
    ensures r.timer == None
    ensures r.pending == if s.timer.Some? then s.pending - {s.timer.value} else s.pending
    ensures r == s.(timer := None, pending := r.pending)
  {
    match s.timer
    case None => s
    case Some(t) => s.(timer := None, pending := s.pending - {t})
  }

  /** `scheduleReconnect`: clear, then set one fresh timeout and remember its handle. */
  function ScheduleReconnect(s: Conn): (r: Conn)
    ensures r.timer == Some(s.nextTimerId)
    ensures r.pending == ClearTimer(s).pending + {s.nextTimerId}
    ensures r.nextTimerId == s.nextTimerId + 1
    ensures r == s.(timer := r.timer, pending := r.pending, nextTimerId := r.nextTimerId)
  {
    var c := ClearTimer(s);
    var t := c.nextTimerId;
    c.(timer := Some(t), pending := c.pending + {t}, nextTimerId := t + 1)
  }

  /** The `open` handler: the socket is open, the connecting flag drops, the timer is cleared. */
  function OnOpen(s: Conn): (r: Conn)
    ensures r.socket == Open && !r.isConnecting && r.timer == None
    ensures r == ClearTimer(s).(isConnecting := false, socket := Open)
  {
    ClearTimer(s.(isConnecting := false)).(socket := Open)
  }

  /** `sendConnect`, 100 ms after opening: `CONNECT <options>` and the delimiter. */
  function SendConnect<J>(s: Conn, options: string): (effects: seq<Effect<J>>)
    ensures s.socket == Open ==> effects == [Send(ConnectCmd(options))]
    ensures s.socket != Open ==> effects == []
  {
    SendRaw(s, ConnectCmd(options))
  }

  /** The text of a command on the wire; a sid is written in decimal. */
  function Wire(c: Command): (line: string)
    ensures |line| >= 2 && line[|line| - 2..] == "\r\n"
    ensures c.ConnectCmd? ==> StartsWith(line, "CONNECT ")
    ensures c.SubCmd? ==> StartsWith(line, "SUB ")
    ensures c.PongCmd? ==> line == "PONG\r\n"
    ensures (c.ConnectCmd? ==> Framing.CrlfFree(c.options)) && (c.SubCmd? ==> Framing.CrlfFree(c.subject))
      ==> Framing.CrlfFree(line[..|line| - 2])
  {
    match c
    case ConnectCmd(options) =>
      Framing.CrlfFreeAppend("CONNECT ", options);
      assert ("CONNECT " + options + "\r\n")[..|"CONNECT " + options|] == "CONNECT " + options;
      "CONNECT " + options + "\r\n"
    case SubCmd(subject, sid) =>
      var d := Decimal(sid);
      Framing.CrlfFreeAppend("SUB ", subject);
      Framing.CrlfFreeAppend("SUB " + subject, " ");
      Framing.CrlfFreeAppend("SUB " + subject + " ", d);
      assert ("SUB " + subject + " " + d + "\r\n")[..|"SUB " + subject + " " + d|] == "SUB " + subject + " " + d;
      "SUB " + subject + " " + d + "\r\n"
    case PongCmd => "PONG\r\n"
  }

  /** `subject` does not occur after index `i`: its subscription there is the most recent. */
  predicate LastOccurrence(subjects: seq<string>, i: int)
    requires 0 <= i < |subjects|
  {
    forall j :: i < j < |subjects| ==> subjects[j] != subjects[i]
  }

  /** `subscribeToSubjects`: each subject in turn takes the next id, records it in the map
      and sends `SUB <subject> <sid>` (if the socket is open). */
  function Subscribe<J>(s: Conn, subjects: seq<string>): (t: Transition<J>)
    ensures t.state == s.(sidCounter := s.sidCounter + |subjects|, subscriptions := t.state.subscriptions)
    ensures |t.issued| == |subjects|
    ensures forall i :: 0 <= i < |subjects| ==> t.issued[i] == s.sidCounter + i
    ensures s.socket == Open ==> |t.effects| == |subjects|
    ensures s.socket == Open ==>
              forall i :: 0 <= i < |subjects| ==> t.effects[i] == Send(SubCmd(subjects[i], s.sidCounter + i))
    ensures s.socket != Open ==> t.effects == []
    decreases |subjects|
  {
    if |subjects| == 0 then Transition(s, [], [])
    else
      var sid := s.sidCounter;
      var s1 := s.(sidCounter := sid + 1, subscriptions := s.subscriptions[subjects[0] := sid]);
      var rest := Subscribe(s1, subjects[1..]);
      Transition(rest.state, SendRaw(s, SubCmd(subjects[0], sid)) + rest.effects, [sid] + rest.issued)
  }

  /** The messages handed to `onMessage` among `effects`, in order. */
  function Delivered<J>(effects: seq<Effect<J>>): seq<Framing.NatsMessage<J>>
    decreases |effects|
  {
    if |effects| == 0 then []
    else (if effects[0].Deliver? then [effects[0].msg] else []) + Delivered(effects[1..])
  }

  lemma {:induction false} DeliveredConcat<J>(a: seq<Effect<J>>, b: seq<Effect<J>>)
    ensures Delivered(a + b) == Delivered(a) + Delivered(b)
    decreases |a|
  {
    if |a| > 0 {
      assert (a + b)[0] == a[0];
      assert (a + b)[1..] == a[1..] + b;
      DeliveredConcat(a[1..], b);
    } else {
      assert a + b == b;
    }
  }

  /** The effect of one drained output on an open socket. */
  function Lift<J>(o: Framing.Output<J>): Effect<J> {
    match o
    case Deliver(m) => Deliver(m)
    case SendPong => Send(PongCmd)
  }

  /** What a drained output becomes: deliveries reach `onMessage`, a `PONG` goes through
      `sendRaw`. Every drained message is delivered, in stream order, whatever the socket. */
  function Outbound<J>(s: Conn, outs: seq<Framing.Output<J>>): (effects: seq<Effect<J>>)
    ensures |effects| <= |outs|
    ensures s.socket == Open ==> |effects| == |outs| && forall k :: 0 <= k < |outs| ==> effects[k] == Lift(outs[k])
    ensures forall k :: 0 <= k < |effects| ==> effects[k].Deliver? || effects[k] == Send(PongCmd)
    ensures s.socket != Open ==> forall k :: 0 <= k < |effects| ==> effects[k].Deliver?
    ensures Delivered(effects) == Framing.Messages(outs)
    decreases |outs|
  {
    if |outs| == 0 then []
    else
      var first: seq<Effect<J>> := match outs[0]
        case Deliver(m) => [Deliver(m)]
        case SendPong => SendRaw(s, PongCmd);
      var rest := Outbound(s, outs[1..]);
      assert |first| <= 1 && (first != [] ==> first[0] == Lift(outs[0]) && first[1..] == []);
      assert s.socket == Open ==> first == [Lift(outs[0])];
      DeliveredConcat(first, rest);
      first + rest
  }

  /** The `message` handler: append the chunk and drain the buffer. */
  function OnMessage<J>(parse: string -> Option<J>, s: Conn, chunk: string): (t: Transition<J>)
    ensures t.state == s.(buffer := t.state.buffer)
    ensures t.issued == []
  {
    var d := Framing.Feed(parse, s.buffer, chunk);
    Transition(s.(buffer := d.rest), Outbound(s, d.outs), [])
  }

  /** The `error` handler: the connecting flag drops and `onError` is called if given. */
  function OnError<J>(s: Conn, hasOnError: bool): (t: Transition<J>)
    ensures t.state == s.(isConnecting := false)
    ensures t.effects == (if hasOnError then [ReportError] else [])
  {
    Transition(s.(isConnecting := false), if hasOnError then [ReportError] else [], [])
  }

  /** Close code 1008 (Policy Violation, section 7.4.1 of RFC 6455) or a reason mentioning
      `401` or `Unauthorized` counts as an authentication failure. */
  predicate IsAuthFailure(code: int, reason: string) {
    code == 1008 || Includes(reason, "401") || Includes(reason, "Unauthorized")
  }

  /** The `close` handler: an authentication failure only clears the timer; any other
      close schedules a reconnect. The handler does not touch the `ws` field: after
      `disconnect` has dropped the socket, the close it caused still arrives here. */
  function OnClose(s: Conn, code: int, reason: string): (r: Conn)
    ensures r.socket == (if s.socket == NoSocket then NoSocket else Closed) && !r.isConnecting
    ensures r.sidCounter == s.sidCounter && r.subscriptions == s.subscriptions && r.buffer == s.buffer
    ensures IsAuthFailure(code, reason) ==> r.timer == None && r.pending <= s.pending
    ensures !IsAuthFailure(code, reason) ==> r.timer == Some(s.nextTimerId) && s.nextTimerId in r.pending
  {
    var closed := s.(socket := if s.socket == NoSocket then NoSocket else Closed, isConnecting := false);
    if IsAuthFailure(code, reason) then ClearTimer(closed) else ScheduleReconnect(closed)
  }

  /** A reconnect timeout runs its callback, `connect`, unless it was cleared. */
  function OnTimer(s: Conn, id: nat): (r: Conn)
    ensures id !in s.pending ==> r == s
    ensures id in s.pending ==> r == Connect(s.(pending := s.pending - {id}))
  {
    if id in s.pending then Connect(s.(pending := s.pending - {id})) else s
  }

  /** `disconnect`: clear the timer, close and forget the socket if there is one. */
  function Disconnect<J>(s: Conn): (t: Transition<J>)
    ensures t.state.timer == None && t.state.socket == NoSocket
    ensures t.effects == if s.socket != NoSocket then [CloseSocket] else []
    ensures t.state == ClearTimer(s).(socket := NoSocket)
  {
    var c := ClearTimer(s);
    if c.socket != NoSocket then Transition(c.(socket := NoSocket), [CloseSocket], [])
    else Transition(c, [], [])
  }

  /** The events that drive the client, serialized as the event loop runs them. The two
      delayed steps after `open` are their own events. */
  datatype Event =
    | ConnectCall
    | OpenEvent
    | ConnectDue
    | SubscribeDue
    | MessageEvent(chunk: string)
    | ErrorEvent
    | CloseEvent(code: int, reason: string)
    | TimerDue(id: nat)
    | DisconnectCall

  function Next<J>(env: Env<J>, s: Conn, e: Event): Transition<J> {
    match e
    case ConnectCall => Transition(Connect(s), [], [])
    case OpenEvent => Transition(OnOpen(s), [], [])
    case ConnectDue => Transition(s, SendConnect(s, env.options), [])
    case SubscribeDue => Subscribe(s, env.subjects)
    case MessageEvent(chunk) => OnMessage(env.parse, s, chunk)
    case ErrorEvent => OnError(s, env.hasOnError)
    case CloseEvent(code, reason) => Transition(OnClose(s, code, reason), [], [])
    case TimerDue(id) => Transition(OnTimer(s, id), [], [])
    case DisconnectCall => Disconnect(s)
  }

  /** A run of events from `s`: the final state, all effects and all ids issued, in order. */
  function Run<J>(env: Env<J>, s: Conn, events: seq<Event>): Transition<J>
    decreases |events|
  {
    if |events| == 0 then Transition(s, [], [])
    else
      var t := Next(env, s, events[0]);
      var u := Run(env, t.state, events[1..]);
      Transition(u.state, t.effects + u.effects, t.issued + u.issued)
  }
}
