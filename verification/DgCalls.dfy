/** Every call in a run of the protocol is a call of dg_send_recv: what the client did between
    the events it saw is what the method does with those events. */
module DgCalls {
  import opened Basics
  import opened Rtt
  import opened DgSendRecv
  import opened DgProtocol

  // ---- what the records say ----

  function ServeOf(l: Log): Served {
    var c := Begin(l.before, l.now);
    Serve(c, l.inbytes, l.evs, [Stamp(c, l.at)])
  }

  /** State, outcome and headers are those of the call with these events. */
  predicate LogOk(l: Log) {
    l.sent != [] && ServeOf(l) == Served(l.client, l.outcome, l.sent)
  }

  predicate Ended(l: Log) {
    LogOk(l) && !l.outcome.Blocked?
  }

  /** The latest call, by where the client is in it. */
  predicate LatestOk(l: Log, c: Client, phase: Phase) {
    match phase
    case Idle => Ended(l) && c == l.client
    case Waiting => LogOk(l) && l.outcome.Blocked? && c == l.client
    case Sending =>
      l.outcome.Blocked? &&
      if l.sent == [] then l.evs == [] && c == Begin(l.before, l.now)
      else LogOk(l) && c == Alarmed(l.client) && !GivesUp(c.info)
  }

  /** The headers transmitted for request `n`. */
  function HeadersOf(sent: seq<Tx>, n: nat): seq<Header> {
    if sent == [] then []
    else
      var t := sent[|sent| - 1];
      HeadersOf(sent[..|sent| - 1], n) + if t.req == n then [t.hdr] else []
  }

  /** Each call begins with the state the one before left. */
  predicate Chained(logs: seq<Log>) {
    && (logs != [] ==> logs[0].before == INITIAL.client)
    && forall i | 0 < i < |logs| :: logs[i].before == logs[i - 1].client
  }

  predicate Room(logs: seq<Log>, calls: seq<Request>) {
    |logs| == |calls| && forall i | 0 <= i < |logs| :: logs[i].inbytes == calls[i].inbytes
  }

  predicate Transmitted(logs: seq<Log>, sent: seq<Tx>) {
    forall i | 0 <= i < |logs| :: logs[i].sent == HeadersOf(sent, i + 1)
  }

  predicate Replied(logs: seq<Log>, answers: seq<Answer>) {
    forall i | 0 <= i < |logs| && logs[i].outcome.Reply? ::
      logs[i].answer < |answers| && answers[logs[i].answer].req == i + 1
      && answers[logs[i].answer].data == logs[i].outcome.data
  }

  predicate CallsOk(logs: seq<Log>, c: Client, phase: Phase) {
    && (forall i | 0 <= i < |logs| - 1 :: Ended(logs[i]))
    && if logs == [] then phase.Idle? && c == INITIAL.client else LatestOk(logs[|logs| - 1], c, phase)
  }

  ghost predicate Logged(s: State) {
    && Chained(s.logs) && Room(s.logs, s.calls) && Transmitted(s.logs, s.sent) && Replied(s.logs, s.answers)
    && CallsOk(s.logs, s.client, s.phase)
  }

  // ---- every step keeps them ----

  lemma {:induction false} HeadersNone(sent: seq<Tx>, n: nat)
    requires forall i | 0 <= i < |sent| :: sent[i].req < n
    ensures HeadersOf(sent, n) == []
  {
    if sent != [] {
      HeadersNone(sent[..|sent| - 1], n);
    }
  }

  lemma HeadersMore(sent: seq<Tx>, t: Tx, n: nat)
    ensures HeadersOf(sent + [t], n) == HeadersOf(sent, n) + if t.req == n then [t.hdr] else []
  {
    assert (sent + [t])[..|sent|] == sent;
  }

  /** One more call. */
  lemma {:induction false} NewLog(s: State, l: Log, req: Request)
    requires Logged(s) && s.phase.Idle? && l.before == s.client && l.inbytes == req.inbytes
    requires l.evs == [] && l.sent == [] && l.outcome.Blocked? && HeadersOf(s.sent, |s.logs| + 1) == []
    ensures var logs := s.logs + [l];
            && Chained(logs) && Room(logs, s.calls + [req]) && Transmitted(logs, s.sent) && Replied(logs, s.answers)
            && CallsOk(logs, Begin(l.before, l.now), Sending)
  {
    hide HeadersOf, ServeOf, Begin;
    var logs := s.logs + [l];
    assert forall i | 0 <= i < |s.logs| :: logs[i] == s.logs[i];
  }

  lemma {:induction false} LoggedCall(s: State, req: Request)
    requires Logged(s) && Inv(s) && Enabled(s, Call(req))
    ensures Logged(Step(s, Call(req)))
  {
    assert |s.logs| == |s.calls|;
    forall i | 0 <= i < |s.sent| ensures s.sent[i].req < |s.calls| + 1 {
      assert TxOk(s.sent[i], s.calls, s.now);
    }
    HeadersNone(s.sent, |s.calls| + 1);
    var l := Log(s.client, s.now, s.now, req.inbytes, [], Begin(s.client, s.now), Blocked, [], 0);
    NewLog(s, l, req);
    hide HeadersOf, LogOk, Inv, Begin, SendStep, AcceptStep, Chained, Room, Transmitted, Replied, CallsOk;
  }

  /** The record of the latest call has changed, and nothing before it. */
  lemma {:induction false} LatestChanges(s: State, s': State, l: Log)
    requires Logged(s) && s.logs != [] && s'.logs == s.logs[|s.logs| - 1 := l] && s'.calls == s.calls
    requires l.before == Current(s.logs).before && l.inbytes == Current(s.logs).inbytes
    requires LatestOk(l, s'.client, s'.phase)
    ensures Chained(s'.logs) && Room(s'.logs, s'.calls) && CallsOk(s'.logs, s'.client, s'.phase)
  {
    hide LogOk, LatestOk, Transmitted, Replied;
  }

  lemma {:induction false} SameTransmissions(logs: seq<Log>, sent: seq<Tx>, l: Log)
    requires Transmitted(logs, sent) && logs != [] && l.sent == logs[|logs| - 1].sent
    ensures Transmitted(logs[|logs| - 1 := l], sent)
  {
    hide HeadersOf;
  }

  lemma {:induction false} OneMoreTransmission(logs: seq<Log>, sent: seq<Tx>, l: Log, t: Tx)
    requires Transmitted(logs, sent) && logs != [] && t.req == |logs| && l.sent == logs[|logs| - 1].sent + [t.hdr]
    ensures Transmitted(logs[|logs| - 1 := l], sent + [t])
  {
    var logs' := logs[|logs| - 1 := l];
    forall i | 0 <= i < |logs| ensures logs'[i].sent == HeadersOf(sent + [t], i + 1) {
      HeadersMore(sent, t, i + 1);
    }
  }

  lemma {:induction false} SameReplies(logs: seq<Log>, answers: seq<Answer>, l: Log)
    requires Replied(logs, answers) && logs != [] && !l.outcome.Reply?
    ensures Replied(logs[|logs| - 1 := l], answers)
  {
  }

  lemma {:induction false} OneMoreReply(logs: seq<Log>, answers: seq<Answer>, l: Log, r: Answer)
    requires Replied(logs, answers) && logs != []
    requires l.outcome == Reply(r.data) && l.answer == |answers| && r.req == |logs|
    ensures Replied(logs[|logs| - 1 := l], answers + [r])
  {
  }

  lemma {:induction false} FirstTransmission(l: Log, now: nat)
    requires LatestOk(l, Begin(l.before, l.now), Sending) && l.sent == []
    ensures var c := Begin(l.before, l.now);
            LatestOk(l.(at := now, client := c, sent := [Stamp(c, now)]), c, Waiting)
  {
  }

  lemma {:induction false} NextTransmission(l: Log, c: Client, now: nat)
    requires LatestOk(l, c, Sending) && l.sent != []
    ensures LatestOk(l.(evs := l.evs + [Alarm(now)], client := c, sent := l.sent + [Stamp(c, now)]), c, Waiting)
  {
    var b := Begin(l.before, l.now);
    ServeMore(b, l.inbytes, l.evs, Alarm(now), [Stamp(b, l.at)]);
    hide Begin, Alarmed, Stamp;
  }

  lemma {:induction false} LastAlarm(l: Log, c: Client, now: nat)
    requires LatestOk(l, c, Waiting) && GivesUp(Alarmed(c).info)
    ensures LatestOk(l.(evs := l.evs + [Alarm(now)], client := Alarmed(c), outcome := TimedOut), Alarmed(c), Idle)
  {
    var b := Begin(l.before, l.now);
    ServeMore(b, l.inbytes, l.evs, Alarm(now), [Stamp(b, l.at)]);
    hide Begin, Alarmed, Stamp;
  }

  lemma {:induction false} OtherReply(l: Log, c: Client, now: nat, h: Header, data: seq<byte>)
    requires LatestOk(l, c, Waiting) && h.seqno != c.seqno
    ensures LatestOk(l.(evs := l.evs + [Arrival(now, h, data)]), c, Waiting)
  {
    var b := Begin(l.before, l.now);
    ServeMore(b, l.inbytes, l.evs, Arrival(now, h, data), [Stamp(b, l.at)]);
    hide Begin, Stamp;
  }

  lemma {:induction false} OwnReply(l: Log, c: Client, now: nat, h: Header, data: seq<byte>, k: nat)
    requires LatestOk(l, c, Waiting) && h.seqno == c.seqno
    ensures var c' := Answered(c, h, now);
            LatestOk(l.(evs := l.evs + [Arrival(now, h, data)], client := c', outcome := Reply(Prefix(data, l.inbytes)),
                        answer := k), c', Idle)
  {
    var b := Begin(l.before, l.now);
    ServeMore(b, l.inbytes, l.evs, Arrival(now, h, data), [Stamp(b, l.at)]);
    hide Begin, Stamp, Answered;
  }

  lemma {:induction false} LoggedSend(s: State)
    requires Logged(s) && Enabled(s, Send)
    ensures Logged(SendStep(s))
  {
    assert s.logs != [] && |s.logs| == |s.calls|;
    var s', l := SendStep(s), Current(s.logs);
    var t, l' := s'.sent[|s.sent|], LogSent(s, Stamp(s.client, s.now));
    assert s'.sent == s.sent + [t] && t.req == |s.logs| && t.hdr == Stamp(s.client, s.now);
    if l.sent == [] {
      FirstTransmission(l, s.now);
    } else {
      NextTransmission(l, s.client, s.now);
    }
    assert LatestOk(l', s'.client, s'.phase) && l'.sent == l.sent + [t.hdr] && !l'.outcome.Reply?;
    hide HeadersOf, LogOk, LatestOk, Begin, Stamp, LogSent;
    LatestChanges(s, s', l');
    OneMoreTransmission(s.logs, s.sent, l', t);
    SameReplies(s.logs, s.answers, l');
  }

  lemma {:induction false} LoggedTimeout(s: State)
    requires Logged(s) && Enabled(s, Timeout)
    ensures Logged(Step(s, Timeout))
  {
    hide HeadersOf, ServeOf, Begin, Stamp, SendStep, AcceptStep;
    var s', l := Step(s, Timeout), Current(s.logs);
    if GivesUp(Alarmed(s.client).info) {
      LastAlarm(l, s.client, s.now);
      hide LogOk, Alarmed;
      var l' := LogGivenUp(s, Alarmed(s.client));
      LatestChanges(s, s', l');
      SameTransmissions(s.logs, s.sent, l');
      SameReplies(s.logs, s.answers, l');
    }
  }

  lemma {:induction false} LoggedReceive(s: State, m: Datagram)
    requires Logged(s) && Enabled(s, Receive(m))
    ensures Logged(Step(s, Receive(m)))
  {
    assert s.logs != [] && |s.logs| == |s.calls|;
    var s', l := Step(s, Receive(m)), Current(s.logs);
    assert l.inbytes == s.calls[|s.calls| - 1].inbytes && LatestOk(l, s.client, Waiting) && !l.outcome.Reply?;
    hide HeadersOf, ServeOf, Begin, Stamp, SendStep, LogOk, CallsOk, Transmitted, Replied, Chained, Room;
    if m.hdr.seqno == s.client.seqno {
      OwnReply(l, s.client, s.now, m.hdr, m.data, |s.answers|);
      var l' := LogAnswered(s, m);
      LatestChanges(s, s', l');
      SameTransmissions(s.logs, s.sent, l');
      OneMoreReply(s.logs, s.answers, l', s'.answers[|s.answers|]);
    } else {
      OtherReply(l, s.client, s.now, m.hdr, m.data);
      var l' := LogSeen(s, Arrival(s.now, m.hdr, m.data));
      LatestChanges(s, s', l');
      SameTransmissions(s.logs, s.sent, l');
      SameReplies(s.logs, s.answers, l');
    }
  }

  lemma {:induction false} LoggedStep(s: State, a: Action)
    requires Logged(s) && Inv(s) && Enabled(s, a)
    ensures Logged(Step(s, a))
  {
    hide Inv, SendStep, AcceptStep, Chained, Room, Transmitted, Replied, CallsOk;
    match a {
      case Call(req) => LoggedCall(s, req);
      case Send => LoggedSend(s);
      case Timeout => LoggedTimeout(s);
      case Receive(m) => LoggedReceive(s, m);
      case _ =>
    }
  }

  lemma LoggedInitial()
    ensures Run([]) == Some(INITIAL) && Logged(INITIAL)
  {
  }

  lemma {:induction false} RunFront(acts: seq<Action>)
    requires acts != [] && Run(acts).Some?
    ensures var front, a := acts[..|acts| - 1], acts[|acts| - 1];
            Run(front).Some? && Enabled(Run(front).value, a) && Run(acts).value == Step(Run(front).value, a)
  {
    hide Enabled, Step;
  }

  lemma {:induction false} RunLogged(acts: seq<Action>)
    ensures Run(acts).Some? ==> Logged(Run(acts).value)
  {
    hide *;
    if acts == [] {
      LoggedInitial();
    } else if Run(acts).Some? {
      RunFront(acts);
      var front := acts[..|acts| - 1];
      RunLogged(front);
      RunKeeps(front);
      LoggedStep(Run(front).value, acts[|acts| - 1]);
    }
  }

  // ---- what a caller gets ----

  /** In every run, each call that has ended did what dg_send_recv does with the events it saw:
      it began with the state the call before left, and its state, outcome and headers, which
      are those on the wire, are those of `Serve`. */
  lemma {:induction false} Simulates(acts: seq<Action>, i: nat)
    requires Run(acts).Some? && i < |Run(acts).value.calls|
    requires i < |Run(acts).value.calls| - 1 || Run(acts).value.phase.Idle?
    ensures var s := Run(acts).value;
            && |s.logs| == |s.calls|
            && var l := s.logs[i];
            && l.before == (if i == 0 then INITIAL.client else s.logs[i - 1].client) && l.inbytes == s.calls[i].inbytes
            && ServeOf(l) == Served(l.client, l.outcome, HeadersOf(s.sent, i + 1)) && !l.outcome.Blocked?
            && (i == |s.calls| - 1 ==> l.client == s.client)
  {
    RunLogged(acts);
    hide Run, HeadersOf, ServeOf, Replied;
  }

  /** So over every run of at most 2^32 requests the call itself returns no stale reply. */
  lemma {:induction false} CallNeverStale(acts: seq<Action>, i: nat)
    requires Run(acts).Some? && |Run(acts).value.calls| <= WRAP32 && i < |Run(acts).value.logs|
    ensures var s := Run(acts).value;
            && |s.logs| == |s.calls|
            && var l, q := s.logs[i], s.calls[i];
               l.outcome.Reply? ==> OwnData(l.outcome.data, q)
  {
    RunLogged(acts);
    var s := Run(acts).value;
    hide Run, HeadersOf, ServeOf, CallsOk, Transmitted, Chained, OwnData, Prefix;
    if s.logs[i].outcome.Reply? {
      NeverStale(acts, s.logs[i].answer);
    }
  }

  /** The states the calls leave behind them. */
  function StateAfter(logs: seq<Log>, i: nat): Client
    requires i <= |logs|
  {
    if i == 0 then INITIAL.client else logs[i - 1].client
  }

  lemma {:induction false} CallsAre(acts: seq<Action>)
    requires Run(acts).Some? && Run(acts).value.phase.Idle?
    ensures var s := Run(acts).value;
            && |s.logs| == |s.calls| && StateAfter(s.logs, |s.logs|) == s.client
            && StateAfter(s.logs, 0) == INITIAL.client
            && forall i | 0 <= i < |s.logs| :: Made(s.logs, i)
  {
    RunLogged(acts);
    var s := Run(acts).value;
    assert |s.logs| == |s.calls|;
    forall i | 0 <= i < |s.logs| ensures Made(s.logs, i) {
      Simulates(acts, i);
    }
    if s.logs != [] {
      Simulates(acts, |s.logs| - 1);
    }
    hide Run, ServeOf, HeadersOf, Chained, Room, Transmitted, Replied;
  }

  /** What the method does from the state before the `i`-th call. */
  predicate Made(logs: seq<Log>, i: nat)
    requires i < |logs|
  {
    var l := logs[i];
    var c := Begin(StateAfter(logs, i), l.now);
    var r := Serve(c, l.inbytes, l.evs, [Stamp(c, l.at)]);
    r.client == StateAfter(logs, i + 1) && r.outcome == l.outcome
  }

  /** The calls of these records made with the method, one after the other. */
  method ReplayLogs(logs: seq<Log>) returns (e: Endpoint, outcomes: seq<Outcome>)
    requires forall i | 0 <= i < |logs| :: Made(logs, i)
    ensures e.View() == StateAfter(logs, |logs|) && |outcomes| == |logs|
    ensures forall j | 0 <= j < |logs| :: outcomes[j] == logs[j].outcome
  {
    assert StateAfter(logs, 0) == Client(Info(0.0, 0.0, 0.0, 0.0, 0, 0), false, 0);
    hide StateAfter, Serve, Begin, Stamp;
    e := new Endpoint();
    outcomes := [];
    for i := 0 to |logs|
      invariant fresh(e) && fresh(e.rttinfo) && |outcomes| == i && e.View() == StateAfter(logs, i)
      invariant forall j | 0 <= j < i :: outcomes[j] == logs[j].outcome
    {
      assert Made(logs, i);
      var outcome, sent, _ := e.SendRecv(logs[i].inbytes, logs[i].now, logs[i].at, logs[i].evs);
      outcomes := outcomes + [outcome];
    }
  }

  /** The calls of any run made with the method: they end in the client's state, and no reply is
      returned that is not the call's own. */
  method Replay(acts: seq<Action>) returns (e: Endpoint, outcomes: seq<Outcome>)
    requires Run(acts).Some? && Run(acts).value.phase.Idle? && |Run(acts).value.calls| <= WRAP32
    ensures e.View() == Run(acts).value.client && |outcomes| == |Run(acts).value.calls|
    ensures forall i | 0 <= i < |outcomes| && outcomes[i].Reply? ::
              OwnData(outcomes[i].data, Run(acts).value.calls[i])
  {
    CallsAre(acts);
    hide *;
    var s := Run(acts).value;
    e, outcomes := ReplayLogs(s.logs);
    forall i | 0 <= i < |outcomes| && outcomes[i].Reply?
      ensures OwnData(outcomes[i].data, s.calls[i])
    {
      CallNeverStale(acts, i);
    }
  }
}
