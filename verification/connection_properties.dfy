/** Invariants of the connection lifecycle: at most one reconnect timeout is ever pending,
    subscription ids only grow and are never handed out twice, authentication failures
    never retry, and nothing is sent on a socket that is not open. */
module ConnectionProperties {
  import opened Wrappers
  import opened Strings
  import opened JsNumber
  import Framing
  import FramingProperties
  import opened Connection

  /** Every pending timeout is the one the `reconnectTimer` field refers to. */
  ghost predicate TimerInv(s: Conn) {
    forall t :: t in s.pending ==> s.timer == Some(t)
  }

  /** Ids start at 1 and every id in the map was handed out before the counter. */
  ghost predicate SidInv(s: Conn) {
    && s.sidCounter >= 1
    && forall x :: x in s.subscriptions ==> 1 <= s.subscriptions[x] < s.sidCounter
  }

  ghost predicate Inv(s: Conn) {
    TimerInv(s) && SidInv(s)
  }

  lemma InitialInv()
    ensures Inv(Initial)
  {
  }

  /** The single-timer invariant bounds the pending timeouts by one. */
  lemma AtMostOnePendingTimer(s: Conn)
    requires TimerInv(s)
    ensures |s.pending| <= 1
    ensures s.pending != {} ==> s.timer.Some? && s.pending == {s.timer.value}
  {
    if s.pending != {} {
      var t :| t in s.pending;
      assert s.pending == {t};
    }
  }

  /** Clearing leaves no timeout pending; clearing again changes nothing. */
  lemma ClearTimerSettles(s: Conn)
    requires TimerInv(s)
    ensures ClearTimer(s).pending == {}
    ensures ClearTimer(ClearTimer(s)) == ClearTimer(s)
  {
  }

  /** Scheduling leaves exactly one timeout pending, however often it is called. */
  lemma ScheduleLeavesOne(s: Conn)
    requires TimerInv(s)
    ensures ScheduleReconnect(s).pending == {s.nextTimerId}
    ensures ScheduleReconnect(ScheduleReconnect(s)).pending == {s.nextTimerId + 1}
  {
    ClearTimerSettles(s);
    var s1 := ScheduleReconnect(s);
    assert TimerInv(s1);
    ClearTimerSettles(s1);
  }

  /** Close classification in a reachable state: an authentication failure leaves no
      timeout pending, any other close leaves exactly one. */
  lemma CloseClassification(s: Conn, code: int, reason: string)
    requires TimerInv(s)
    ensures IsAuthFailure(code, reason) ==> OnClose(s, code, reason).pending == {} && OnClose(s, code, reason).timer == None
    ensures !IsAuthFailure(code, reason) ==>
              OnClose(s, code, reason).pending == {s.nextTimerId} && OnClose(s, code, reason).timer == Some(s.nextTimerId)
  {
    var closed := s.(socket := if s.socket == NoSocket then NoSocket else Closed, isConnecting := false);
    assert TimerInv(closed);
    ClearTimerSettles(closed);
  }

  /** After an authentication failure no timer can fire: every timer event is ignored. */
  lemma AuthFailureNeverRetries(s: Conn, code: int, reason: string, id: nat)
    requires TimerInv(s)
    requires IsAuthFailure(code, reason)
    ensures OnTimer(OnClose(s, code, reason), id) == OnClose(s, code, reason)
  {
    CloseClassification(s, code, reason);
  }

  /** After `disconnect` no socket is held and no timeout is pending; a second call
      neither changes the state nor does anything. */
  lemma DisconnectSettles<J>(s: Conn)
    requires TimerInv(s)
    ensures Disconnect<J>(s).state.pending == {}
    ensures Disconnect<J>(Disconnect<J>(s).state) == Transition(Disconnect<J>(s).state, [], [])
  {
    ClearTimerSettles(s);
  }

  /** The map after subscribing: its keys gain the subjects, each subject holds the id of
      its last subscription, every other entry is kept. */
  lemma SubscribeRecordsLatest<J>(s: Conn, subjects: seq<string>)
    ensures forall x :: x in Subscribe<J>(s, subjects).state.subscriptions <==> x in s.subscriptions || x in subjects
    ensures forall i :: 0 <= i < |subjects| && LastOccurrence(subjects, i) ==>
              Subscribe<J>(s, subjects).state.subscriptions[subjects[i]] == s.sidCounter + i
    ensures forall x :: x in s.subscriptions && x !in subjects ==>
              Subscribe<J>(s, subjects).state.subscriptions[x] == s.subscriptions[x]
  {
    SubscribeKeys<J>(s, subjects);
    SubscribeLatest<J>(s, subjects);
    SubscribeKeepsOthers<J>(s, subjects);
  }

  /** The state after the first subject of a round has taken its id. */
  function TakeFirst(s: Conn, subject: string): Conn {
    s.(sidCounter := s.sidCounter + 1, subscriptions := s.subscriptions[subject := s.sidCounter])
  }

  lemma SubscribeUnroll<J>(s: Conn, subjects: seq<string>)
    requires |subjects| > 0
    ensures Subscribe<J>(s, subjects).state.subscriptions ==
              Subscribe<J>(TakeFirst(s, subjects[0]), subjects[1..]).state.subscriptions
  {
  }

  lemma {:induction false} SubscribeKeys<J>(s: Conn, subjects: seq<string>)
    ensures forall x :: x in Subscribe<J>(s, subjects).state.subscriptions <==> x in s.subscriptions || x in subjects
    decreases |subjects|
  {
    if |subjects| > 0 {
      SubscribeUnroll<J>(s, subjects);
      SubscribeKeys<J>(TakeFirst(s, subjects[0]), subjects[1..]);
      assert forall x :: x in subjects <==> x == subjects[0] || x in subjects[1..];
    }
  }

  lemma {:induction false} SubscribeKeepsOthers<J>(s: Conn, subjects: seq<string>)
    ensures forall x :: x in s.subscriptions && x !in subjects ==>
              x in Subscribe<J>(s, subjects).state.subscriptions &&
              Subscribe<J>(s, subjects).state.subscriptions[x] == s.subscriptions[x]
    decreases |subjects|
  {
    if |subjects| > 0 {
      SubscribeUnroll<J>(s, subjects);
      SubscribeKeepsOthers<J>(TakeFirst(s, subjects[0]), subjects[1..]);
      assert forall x :: x !in subjects ==> x != subjects[0] && x !in subjects[1..];
    }
  }

  lemma {:induction false} SubscribeLatest<J>(s: Conn, subjects: seq<string>)
    ensures forall i :: 0 <= i < |subjects| && LastOccurrence(subjects, i) ==>
              subjects[i] in Subscribe<J>(s, subjects).state.subscriptions &&
              Subscribe<J>(s, subjects).state.subscriptions[subjects[i]] == s.sidCounter + i
    decreases |subjects|
  {
    if |subjects| > 0 {
      var s1 := TakeFirst(s, subjects[0]);
      var tail := subjects[1..];
      SubscribeUnroll<J>(s, subjects);
      SubscribeLatest<J>(s1, tail);
      SubscribeKeys<J>(s1, tail);
      SubscribeKeepsOthers<J>(s1, tail);
      var m := Subscribe<J>(s, subjects).state.subscriptions;
      forall i | 0 <= i < |subjects| && LastOccurrence(subjects, i)
        ensures subjects[i] in m && m[subjects[i]] == s.sidCounter + i
      {
        if i == 0 {
          LastHasNoLater(subjects);
        } else {
          LaterOccurrence(subjects, i);
        }
      }
    }
  }

  lemma LastHasNoLater(subjects: seq<string>)
    requires |subjects| > 0 && LastOccurrence(subjects, 0)
    ensures subjects[0] !in subjects[1..]
  {
  }

  lemma LaterOccurrence(subjects: seq<string>, i: nat)
    requires 0 < i < |subjects| && LastOccurrence(subjects, i)
    ensures subjects[i] == subjects[1..][i - 1]
    ensures LastOccurrence(subjects[1..], i - 1)
  {
  }

  lemma SubscribePreservesInv<J>(s: Conn, subjects: seq<string>)
    requires Inv(s)
    ensures Inv(Subscribe<J>(s, subjects).state)
  {
    SubscribeRecordsLatest<J>(s, subjects);
    var r := Subscribe<J>(s, subjects).state;
    forall x | x in r.subscriptions
      ensures 1 <= r.subscriptions[x] < r.sidCounter
    {
      if x in subjects {
        var i :| 0 <= i < |subjects| && subjects[i] == x && LastOccurrence(subjects, i) by {
          LastIndexExists(subjects, x);
        }
      }
    }
  }

  lemma LastIndexExists(subjects: seq<string>, x: string)
    requires x in subjects
    ensures exists i :: 0 <= i < |subjects| && subjects[i] == x && LastOccurrence(subjects, i)
    decreases |subjects|
  {
    var last := |subjects| - 1;
    if subjects[last] == x {
      assert LastOccurrence(subjects, last);
    } else {
      var front := subjects[..last];
      assert x in front;
      LastIndexExists(front, x);
      var i :| 0 <= i < |front| && front[i] == x && LastOccurrence(front, i);
      assert LastOccurrence(subjects, i);
    }
  }

  /** Every transition keeps both invariants. */
  lemma NextPreservesInv<J>(env: Env<J>, s: Conn, e: Event)
    requires Inv(s)
    ensures Inv(Next(env, s, e).state)
  {
    match e
    case SubscribeDue => SubscribePreservesInv<J>(s, env.subjects);
    case CloseEvent(code, reason) => CloseClassification(s, code, reason);
    case _ =>
  }

  lemma {:induction false} RunPreservesInv<J>(env: Env<J>, s: Conn, events: seq<Event>)
    requires Inv(s)
    ensures Inv(Run(env, s, events).state)
    decreases |events|
  {
    if |events| > 0 {
      NextPreservesInv(env, s, events[0]);
      RunPreservesInv(env, Next(env, s, events[0]).state, events[1..]);
    }
  }

  /** Ids a transition hands out are the next ones of the counter, which advances past them;
      no transition, `connect` and reconnect included, lowers or resets the counter. */
  lemma NextIssuesFromCounter<J>(env: Env<J>, s: Conn, e: Event)
    ensures Next(env, s, e).state.sidCounter == s.sidCounter + |Next(env, s, e).issued|
    ensures forall i :: 0 <= i < |Next(env, s, e).issued| ==> Next(env, s, e).issued[i] == s.sidCounter + i
  {
  }

  ghost predicate StrictlyIncreasing(xs: seq<nat>) {
    forall i, j :: 0 <= i < j < |xs| ==> xs[i] < xs[j]
  }

  /** Over any run the ids handed out are strictly increasing (so pairwise distinct),
      start at the counter of the first state and stay below that of the last. */
  lemma {:induction false} RunIssuesIncreasing<J>(env: Env<J>, s: Conn, events: seq<Event>)
    ensures Run(env, s, events).state.sidCounter == s.sidCounter + |Run(env, s, events).issued|
    ensures forall i :: 0 <= i < |Run(env, s, events).issued| ==> Run(env, s, events).issued[i] == s.sidCounter + i
    decreases |events|
  {
    if |events| > 0 {
      var t := Next(env, s, events[0]);
      NextIssuesFromCounter(env, s, events[0]);
      RunIssuesIncreasing(env, t.state, events[1..]);
      var u := Run(env, t.state, events[1..]);
      assert Run(env, s, events).issued == t.issued + u.issued;
    }
  }

  /** From a fresh client, the ids ever handed out are 1, 2, 3, ... in order: unique and
      never reused across reconnects. */
  lemma IdsFromInitialAreUnique<J>(env: Env<J>, events: seq<Event>)
    ensures forall i :: 0 <= i < |Run(env, Initial, events).issued| ==> Run(env, Initial, events).issued[i] == i + 1
    ensures StrictlyIncreasing(Run(env, Initial, events).issued)
  {
    RunIssuesIncreasing(env, Initial, events);
  }

  /** Nothing is sent on a socket that is not open. */
  lemma NoSendUnlessOpen<J>(env: Env<J>, s: Conn, e: Event)
    requires s.socket != Open
    ensures forall k :: 0 <= k < |Next(env, s, e).effects| ==> !Next(env, s, e).effects[k].Send?
  {
    match e
    case MessageEvent(chunk) =>
      var d := Framing.Feed(env.parse, s.buffer, chunk);
      OutboundClosedDeliversOnly(s, d.outs);
    case _ =>
  }

  lemma {:induction false} OutboundClosedDeliversOnly<J>(s: Conn, outs: seq<Framing.Output<J>>)
    requires s.socket != Open
    ensures forall k :: 0 <= k < |Outbound(s, outs)| ==> Outbound(s, outs)[k].Deliver?
    decreases |outs|
  {
    if |outs| > 0 {
      OutboundClosedDeliversOnly(s, outs[1..]);
    }
  }

  /** Everything the client sends is one of its three commands: CONNECT with the configured
      options, a SUB for a configured subject with the id handed out for it by the same
      transition, or PONG. */
  lemma SentCommandsAreExpected<J>(env: Env<J>, s: Conn, e: Event)
    ensures forall k :: 0 <= k < |Next(env, s, e).effects| && Next(env, s, e).effects[k].Send? ==>
              var cmd := Next(env, s, e).effects[k].cmd;
              || cmd == ConnectCmd(env.options)
              || cmd == PongCmd
              || exists i :: 0 <= i < |env.subjects| && cmd == SubCmd(env.subjects[i], Next(env, s, e).issued[i])
  {
    match e
    case SubscribeDue =>
      var t := Subscribe<J>(s, env.subjects);
      forall k | 0 <= k < |t.effects| && t.effects[k].Send?
        ensures t.effects[k].cmd == SubCmd(env.subjects[k], t.issued[k])
      {
      }
    case _ =>
  }

  /** A SUB line, read back as a server reads it: without its delimiter it splits on spaces
      into the verb, the subject and a field that `parseInt` reads as the sid. */
  lemma SubLineReadable(subject: string, sid: nat)
    requires |subject| > 0 && ' ' !in subject
    ensures var line := Wire(SubCmd(subject, sid));
            && line == "SUB " + subject + " " + Decimal(sid) + "\r\n"
            && Split(line[..|line| - 2], ' ') == ["SUB", subject, Decimal(sid)]
            && ParseInt(Decimal(sid)) == Some(sid as int)
  {
    var digits := Decimal(sid);
    var line := Wire(SubCmd(subject, sid));
    var fields := ["SUB", subject, digits];
    var body := "SUB" + [' '] + (subject + [' '] + digits);
    SubLineShape(subject, digits);
    DropDelimiter(body);
    JoinThree("SUB", subject, digits);
    assert ' ' !in digits by {
      assert forall i :: 0 <= i < |digits| ==> IsDigit(digits[i], 10);
    }
    SplitJoin(fields, ' ');
    ParseIntOfDecimal(sid, "");
    assert digits + "" == digits;
  }

  /** `disconnect` does not stop the client for good: the close event of the socket it
      closes is not an authentication failure, so it arms a reconnect, and when that
      timeout runs the client connects again. */
  lemma DisconnectThenCloseReconnects<J>(env: Env<J>, s: Conn)
    requires s.socket == Open
    ensures var t := Run(env, s, [DisconnectCall, CloseEvent(1005, ""), TimerDue(s.nextTimerId)]);
            t.state.socket == Connecting && t.state.isConnecting && t.effects == [CloseSocket]
  {
    var events := [DisconnectCall, CloseEvent(1005, ""), TimerDue(s.nextTimerId)];
    var d := Disconnect<J>(s);
    assert Next(env, s, DisconnectCall) == d;
    assert d.effects == [CloseSocket] && d.state.socket == NoSocket && d.state.nextTimerId == s.nextTimerId;
    assert !IsAuthFailure(1005, "");
    var c := OnClose(d.state, 1005, "");
    assert s.nextTimerId in c.pending && c.socket == NoSocket;
    var f := OnTimer(c, s.nextTimerId);
    assert f.socket == Connecting && f.isConnecting;
    var last := Run(env, c, [TimerDue(s.nextTimerId)]);
    assert [TimerDue(s.nextTimerId)][1..] == [];
    assert Next(env, c, TimerDue(s.nextTimerId)) == Transition(f, [], []);
    assert Run(env, f, []) == Transition(f, [], []);
    assert last == Transition(f, [] + [], [] + []);
    assert events[1..] == [CloseEvent(1005, ""), TimerDue(s.nextTimerId)];
    assert events[1..][1..] == [TimerDue(s.nextTimerId)];
    assert Run(env, d.state, events[1..]) == Transition(f, [], []);
  }

  /** From a fresh client: connect, open, the two delayed steps, and the single
      subscription goes out with id 1. */
  lemma FirstSubscription<J>(env: Env<J>)
    requires env.subjects == Subjects
    ensures var t := Run(env, Initial, [ConnectCall, OpenEvent, ConnectDue, SubscribeDue]);
            && t.effects == [Send(ConnectCmd(env.options)), Send(SubCmd("advancedNewCoinCreated", 1))]
            && t.issued == [1]
            && t.state.subscriptions == map["advancedNewCoinCreated" := 1]
  {
    var s1 := Connect(Initial);
    var s2 := OnOpen(s1);
    assert s2.socket == Open && s2.sidCounter == 1;
    var sub := Subscribe<J>(s2, Subjects);
    FirstRound<J>(s2);
    var u4 := Run(env, s2, [SubscribeDue]);
    RunSingle(env, s2, SubscribeDue);
    var u3 := Run(env, s2, [ConnectDue, SubscribeDue]);
    assert [ConnectDue, SubscribeDue][1..] == [SubscribeDue];
    assert u3 == Transition(u4.state, [Send(ConnectCmd(env.options))] + u4.effects, [] + u4.issued);
    var u2 := Run(env, s1, [OpenEvent, ConnectDue, SubscribeDue]);
    assert [OpenEvent, ConnectDue, SubscribeDue][1..] == [ConnectDue, SubscribeDue];
    assert u2 == Transition(u3.state, [] + u3.effects, [] + u3.issued);
    assert [ConnectCall, OpenEvent, ConnectDue, SubscribeDue][1..] == [OpenEvent, ConnectDue, SubscribeDue];
  }

  /** One subscription round on an open socket for the configured subject. */
  lemma FirstRound<J>(s: Conn)
    requires s.socket == Open
    ensures Subscribe<J>(s, Subjects).effects == [Send(SubCmd("advancedNewCoinCreated", s.sidCounter))]
    ensures Subscribe<J>(s, Subjects).issued == [s.sidCounter]
    ensures Subscribe<J>(s, Subjects).state.subscriptions == s.subscriptions["advancedNewCoinCreated" := s.sidCounter]
  {
    assert Subjects[1..] == [];
  }

  lemma RunSingle<J>(env: Env<J>, s: Conn, e: Event)
    ensures Run(env, s, [e]) == Next(env, s, e)
  {
    assert [e][1..] == [];
    var t := Next(env, s, e);
    assert t.effects + [] == t.effects && t.issued + [] == t.issued;
  }

  lemma SubLineShape(subject: string, digits: string)
    ensures "SUB " + subject + " " + digits + "\r\n" == ("SUB" + [' '] + (subject + [' '] + digits)) + "\r\n"
  {
    assert "SUB " == "SUB" + [' '];
  }

  lemma DropDelimiter(body: string)
    ensures (body + "\r\n")[..|body + "\r\n"| - 2] == body
  {
  }

  lemma JoinThree(a: string, b: string, c: string)
    ensures Join([a, b, c], ' ') == a + [' '] + (b + [' '] + c)
  {
    assert [b, c][1..] == [c];
    assert Join([c], ' ') == c;
    assert Join([b, c], ' ') == b + [' '] + c;
    assert [a, b, c][1..] == [b, c];
  }

  /** One `message` event per chunk. */
  function MessageEvents(chunks: seq<string>): (events: seq<Event>)
    ensures |events| == |chunks|
    ensures forall i :: 0 <= i < |chunks| ==> events[i] == MessageEvent(chunks[i])
  {
    seq(|chunks|, i requires 0 <= i < |chunks| => MessageEvent(chunks[i]))
  }

  /** A run of `message` events hands `onMessage` exactly the messages the drain loop
      produced, in stream order, and leaves the buffer the drain left. */
  lemma {:induction false} MessageRunDelivers<J>(env: Env<J>, s: Conn, chunks: seq<string>)
    ensures Delivered(Run(env, s, MessageEvents(chunks)).effects)
         == Framing.Messages(Framing.FeedAll(env.parse, s.buffer, chunks).outs)
    ensures Run(env, s, MessageEvents(chunks)).state.buffer == Framing.FeedAll(env.parse, s.buffer, chunks).rest
    decreases |chunks|
  {
    var events := MessageEvents(chunks);
    if |chunks| > 0 {
      var d := Framing.Feed(env.parse, s.buffer, chunks[0]);
      var t := Next(env, s, events[0]);
      MessageStep(env, s, chunks[0]);
      assert events[1..] == MessageEvents(chunks[1..]);
      var u := Run(env, t.state, events[1..]);
      MessageRunDelivers(env, t.state, chunks[1..]);
      var e := Framing.FeedAll(env.parse, d.rest, chunks[1..]);
      RunUnroll(env, s, events);
      DeliveredConcat(t.effects, u.effects);
      FramingProperties.MessagesConcat(d.outs, e.outs);
    } else {
      assert Delivered<J>([]) == [];
    }
  }

  /** One `message` event delivers the messages of one drain of the grown buffer. */
  lemma MessageStep<J>(env: Env<J>, s: Conn, chunk: string)
    ensures Delivered(Next(env, s, MessageEvent(chunk)).effects)
         == Framing.Messages(Framing.Feed(env.parse, s.buffer, chunk).outs)
    ensures Next(env, s, MessageEvent(chunk)).state.buffer == Framing.Feed(env.parse, s.buffer, chunk).rest
  {
    assert Next(env, s, MessageEvent(chunk)) == OnMessage(env.parse, s, chunk);
  }

  lemma RunUnroll<J>(env: Env<J>, s: Conn, events: seq<Event>)
    requires |events| > 0
    ensures Run(env, s, events).effects
         == Next(env, s, events[0]).effects + Run(env, Next(env, s, events[0]).state, events[1..]).effects
    ensures Run(env, s, events).state == Run(env, Next(env, s, events[0]).state, events[1..]).state
  {
  }

  /** However the stream is cut into `message` events, the messages delivered are those of
      one drain of the whole text after the buffer. */
  lemma MessageRunIsOneDrain<J>(env: Env<J>, s: Conn, chunks: seq<string>)
    requires |chunks| > 0
    ensures Delivered(Run(env, s, MessageEvents(chunks)).effects)
         == Framing.Messages(Framing.Drain(env.parse, s.buffer + Framing.Concat(chunks)).outs)
  {
    MessageRunDelivers(env, s, chunks);
    FramingProperties.FeedAllIsDrainOfConcat(env.parse, s.buffer, chunks);
  }
}
